/** VendorQuoteService: the quote lifecycle engine. Quotes hang under a sourcing link; the
    engine validates uniqueness of (quote number, version number) per link, runs the
    approval workflow, refuses to edit approved quotes, and deletes softly. */
module QuoteService {
  import opened Common
  import opened Text
  import opened SourcingModel
  import SourcingRepository
  import opened QuoteModel
  import opened QuoteRepository
  import opened Ordering

  // ---------------------------------------------------------------------------------
  // The workflow.

  /** ALLOWED_TRANSITIONS: where each status may move to besides itself. */
  function Transitions(from: Status): (r: set<Status>)
    ensures Draft !in r
    ensures from !in r
    ensures Approved in r <==> from == Submitted || from == UnderReview
  {
    match from
    case Draft => {Submitted}
    case Submitted => {UnderReview, Approved, Rejected}
    case UnderReview => {Approved, Rejected, Submitted}
    case Approved => {UnderReview}
    case Rejected => {Submitted, UnderReview}
  }

  /** The transition check: a self-transition always passes. */
  predicate MayMove(from: Status, to: Status)
  {
    from == to || to in Transitions(from)
  }

  /** A quote whose validity ended before today. */
  predicate Expired(t: Terms, today: int)
  {
    t.validTo.Some? && t.validTo.value < today
  }

  /** The statuses that record a review. */
  predicate Reviewing(s: Status)
  {
    s == UnderReview || s == Approved || s == Rejected
  }

  /** The quote after a status change that passed the checks: the status, the submission or
      review stamp it calls for, and the comment, which is replaced even by an absent one. */
  function Transitioned(q: Quote, target: Status, actor: Option<string>, comment: Option<string>, now: int)
    : (r: Quote)
    ensures r.status == target && r.approvalComment == comment && r.version == q.version + 1
    ensures target == Submitted ==> r.submittedBy == actor && r.submittedAt == Some(now)
    ensures target != Submitted ==> r.submittedBy == q.submittedBy && r.submittedAt == q.submittedAt
    ensures Reviewing(target) ==> r.reviewedBy == actor && r.reviewedAt == Some(now)
    ensures !Reviewing(target) ==> r.reviewedBy == q.reviewedBy && r.reviewedAt == q.reviewedAt
    ensures r.link == q.link && r.terms == q.terms
    ensures r.deleted == q.deleted && r.deletedBy == q.deletedBy && r.deletedAt == q.deletedAt
  {
    var submitted := q.(submittedBy := actor, submittedAt := Some(now));
    var stamped := if target == Submitted then submitted else q;
    var reviewed := if Reviewing(target) then stamped.(reviewedBy := actor, reviewedAt := Some(now)) else stamped;
    reviewed.(status := target, approvalComment := comment, version := q.version + 1)
  }

  /** The status reached from `s` by a run of status requests, each taking effect when the
      transition check passes and ignored otherwise. */
  function Walk(s: Status, targets: seq<Status>): Status
    decreases |targets|
  {
    if targets == [] then s
    else Walk(if MayMove(s, targets[0]) then targets[0] else s, targets[1..])
  }

  /** No run of status requests leads a quote back to DRAFT. */
  lemma {:induction false} WalkNeverReachesDraft(s: Status, targets: seq<Status>)
    requires s != Draft
    ensures Walk(s, targets) != Draft
    decreases |targets|
  {
    if targets != [] {
      WalkNeverReachesDraft(if MayMove(s, targets[0]) then targets[0] else s, targets[1..]);
    }
  }

  /** From SUBMITTED every status but DRAFT is reachable; the review loop can always return
      to submission. */
  lemma WorkflowReachability()
    ensures Walk(Submitted, [UnderReview, Approved]) == Approved
    ensures Walk(Submitted, [Rejected, Submitted, UnderReview]) == UnderReview
    ensures Walk(Approved, [UnderReview, Rejected]) == Rejected
    ensures Walk(Submitted, [Draft]) == Submitted
  {
  }

  // ---------------------------------------------------------------------------------
  // Lookups.

  /** getLinkOrThrow: the link, provided it belongs to the product. */
  function LinkOf(links: map<Id, Link>, product: Id, link: Id): (r: Outcome<Link>)
    ensures r.Ok? <==> link in links && links[link].product == product
    ensures !r.Ok? ==> r.NotFound?
    ensures r.Ok? ==> r.value == links[link]
  {
    match SourcingRepository.FindByProductIdAndId(links, product, link)
    case Some(l) => Ok(l)
    case None => NotFound
  }

  /** findById: the product, then the link, then the quote; every miss is NotFound. */
  function FindQuote(quotes: QuoteTable, links: map<Id, Link>, products: set<Id>, product: Id, link: Id, id: Id,
                     includeDeleted: bool): (r: Outcome<Quote>)
    ensures r.Ok? <==> product in products && id in quotes && quotes[id].link == link
                       && link in links && links[link].product == product && Shown(quotes[id], includeDeleted)
    ensures !r.Ok? ==> r.NotFound?
    ensures r.Ok? ==> r.value == quotes[id]
  {
    if product !in products then NotFound
    else if LinkOf(links, product, link).NotFound? then NotFound
    else match FindByProductAndLinkAndId(quotes, links, product, link, id, includeDeleted)
      case Some(q) => Ok(q)
      case None => NotFound
  }

  /** ensureUniqueQuoteVersion: passes when no quote of the link has the pair, or the one
      found first is the quote being updated. */
  predicate UniqueFor(quotes: QuoteTable, link: Id, t: Terms, current: Option<Id>)
  {
    var duplicate := FindByLinkAndQuoteAndVersion(quotes, link, t.quoteNumber, t.versionNumber);
    duplicate.None? || (current.Some? && duplicate.value == current.value)
  }

  /** No two quotes of a link share (quote number, version number), deleted ones counted. */
  ghost predicate UniqueVersions(quotes: QuoteTable)
  {
    forall i, j | i in quotes && j in quotes && i != j ::
      !SameKey(quotes[j], quotes[i].link, quotes[i].terms.quoteNumber, quotes[i].terms.versionNumber)
  }

  /** On a table without duplicates the check means: every quote carrying the pair, live or
      deleted, is the current one. */
  lemma UniqueForMeaning(quotes: QuoteTable, link: Id, t: Terms, current: Option<Id>)
    requires UniqueVersions(quotes)
    ensures UniqueFor(quotes, link, t, current) <==>
      forall id | id in quotes && SameKey(quotes[id], link, t.quoteNumber, t.versionNumber) :: current == Some(id)
  {
    var duplicate := FindByLinkAndQuoteAndVersion(quotes, link, t.quoteNumber, t.versionNumber);
    if duplicate.Some? && UniqueFor(quotes, link, t, current) {
      var d := duplicate.value;
      forall id | id in quotes && SameKey(quotes[id], link, t.quoteNumber, t.versionNumber)
        ensures current == Some(id)
      {
        assert SameKey(quotes[id], quotes[d].link, quotes[d].terms.quoteNumber, quotes[d].terms.versionNumber);
      }
    }
  }

  // ---------------------------------------------------------------------------------
  // The operations as functions of the table.

  /** The quote create stores: SUBMITTED, stamped with the submission time, live, version 0;
      no submitter is recorded. */
  function NewQuote(link: Id, t: Terms, now: int): Quote
  {
    Quote(link, t, Submitted, None, Some(now), None, None, None, false, None, None, 0)
  }

  /** create: the link must belong to the product (the product itself is not looked up) and
      the pair must be new to the link. */
  function CreateOutcome(quotes: QuoteTable, links: map<Id, Link>, product: Id, link: Id, t: Terms, now: int)
    : (r: Outcome<Quote>)
    ensures r.NotFound? <==> !(link in links && links[link].product == product)
    ensures r.InvalidArgument? <==>
      (link in links && links[link].product == product
       && exists id | id in quotes :: SameKey(quotes[id], link, t.quoteNumber, t.versionNumber))
    ensures !r.Conflict?
    ensures r.Ok? ==>
      (r.value.status == Submitted && !r.value.deleted && r.value.link == link && r.value.terms == t
       && r.value.submittedAt == Some(now) && r.value.submittedBy.None? && r.value.version == 0)
  {
    if LinkOf(links, product, link).NotFound? then NotFound
    else if !UniqueFor(quotes, link, t, None) then InvalidArgument
    else Ok(NewQuote(link, t, now))
  }

  /** The terms update stores: a present currency code is upper-cased. */
  function StoredTerms(t: Terms): (r: Terms)
    ensures r.currencyCode.None? <==> t.currencyCode.None?
    ensures r.currencyCode.Some? ==> r.currencyCode.value == ToUpper(t.currencyCode.value)
    ensures r.(currencyCode := t.currencyCode) == t
  {
    match t.currencyCode
    case None => t
    case Some(c) => t.(currencyCode := Some(ToUpper(c)))
  }

  /** update: find the live quote, then the version check, then the approved rule, then
      uniqueness; on success the terms are overwritten and nothing else. */
  function UpdateOutcome(quotes: QuoteTable, links: map<Id, Link>, products: set<Id>, product: Id, link: Id, id: Id,
                         t: Terms, version: int): (r: Outcome<Quote>)
    ensures r.NotFound? <==> FindQuote(quotes, links, products, product, link, id, false).NotFound?
    ensures r.Conflict? <==> !r.NotFound? && quotes[id].version != version
    ensures r.InvalidArgument? <==>
      (FindQuote(quotes, links, products, product, link, id, false).Ok? && quotes[id].version == version
       && (quotes[id].status == Approved || !UniqueFor(quotes, link, t, Some(id))))
    ensures r.Ok? ==> r.value == quotes[id].(terms := StoredTerms(t), version := quotes[id].version + 1)
  {
    var found := FindQuote(quotes, links, products, product, link, id, false);
    if !found.Ok? then NotFound
    else if found.value.version != version then Conflict
    else if found.value.status == Approved then InvalidArgument
    else if !UniqueFor(quotes, link, t, Some(id)) then InvalidArgument
    else Ok(found.value.(terms := StoredTerms(t), version := found.value.version + 1))
  }

  /** updateStatus: the payload check comes before any lookup; then the transition check,
      then the expiry guard on approval. */
  function StatusOutcome(quotes: QuoteTable, links: map<Id, Link>, products: set<Id>, product: Id, link: Id, id: Id,
                         command: Option<StatusCommand>, today: int, now: int): (r: Outcome<Quote>)
    ensures (command.None? || command.value.status.None?) ==> r.InvalidArgument?
    ensures !r.Conflict?
    ensures r.NotFound? <==>
      (command.Some? && command.value.status.Some?
       && FindQuote(quotes, links, products, product, link, id, false).NotFound?)
    ensures r.Ok? <==>
      (command.Some? && command.value.status.Some?
       && FindQuote(quotes, links, products, product, link, id, false).Ok?
       && MayMove(quotes[id].status, command.value.status.value)
       && !(command.value.status.value == Approved && Expired(quotes[id].terms, today)))
    ensures r.Ok? ==>
      r.value == Transitioned(quotes[id], command.value.status.value, command.value.actor, command.value.comment, now)
  {
    if command.None? || command.value.status.None? then InvalidArgument
    else
      var found := FindQuote(quotes, links, products, product, link, id, false);
      if !found.Ok? then NotFound
      else
        var q := found.value;
        var target := command.value.status.value;
        if q.status != target && target !in Transitions(q.status) then InvalidArgument
        else if target == Approved && Expired(q.terms, today) then InvalidArgument
        else Ok(Transitioned(q, target, command.value.actor, command.value.comment, now))
  }

  /** The quote softDelete stores. */
  function SoftDeleted(q: Quote, actor: Option<string>, now: int): (r: Quote)
    ensures r.deleted && r.deletedBy == actor && r.deletedAt == Some(now)
    ensures r.status == q.status && r.terms == q.terms && r.link == q.link
    ensures r.(deleted := q.deleted, deletedBy := q.deletedBy, deletedAt := q.deletedAt, version := q.version) == q
  {
    q.(deleted := true, deletedBy := actor, deletedAt := Some(now), version := q.version + 1)
  }

  // ---------------------------------------------------------------------------------
  // Properties of the operations.

  /** A request for a transition outside the table fails with InvalidArgument. */
  lemma InvalidTransitionRejected(quotes: QuoteTable, links: map<Id, Link>, products: set<Id>, product: Id, link: Id,
                                  id: Id, command: StatusCommand, today: int, now: int)
    requires FindQuote(quotes, links, products, product, link, id, false).Ok?
    requires command.status.Some? && !MayMove(quotes[id].status, command.status.value)
    ensures StatusOutcome(quotes, links, products, product, link, id, Some(command), today, now).InvalidArgument?
  {
  }

  /** Approving an expired quote fails, even when it is approved already. */
  lemma ExpiredApprovalRejected(quotes: QuoteTable, links: map<Id, Link>, products: set<Id>, product: Id, link: Id,
                                id: Id, actor: Option<string>, comment: Option<string>, today: int, now: int)
    requires FindQuote(quotes, links, products, product, link, id, false).Ok?
    requires Expired(quotes[id].terms, today)
    ensures StatusOutcome(quotes, links, products, product, link, id,
                          Some(StatusCommand(Some(Approved), actor, comment)), today, now).InvalidArgument?
  {
  }

  /** A quote whose validity runs to today itself can still be approved from SUBMITTED: the
      guard is strictly "before today". */
  lemma ApprovalOnLastValidDay(quotes: QuoteTable, links: map<Id, Link>, products: set<Id>, product: Id, link: Id,
                               id: Id, actor: Option<string>, comment: Option<string>, today: int, now: int)
    requires FindQuote(quotes, links, products, product, link, id, false).Ok?
    requires quotes[id].status == Submitted && quotes[id].terms.validTo == Some(today)
    ensures StatusOutcome(quotes, links, products, product, link, id,
                          Some(StatusCommand(Some(Approved), actor, comment)), today, now).Ok?
  {
  }

  /** The order of update's checks: a stale version is a Conflict even on an approved quote,
      and with the right version an approved quote is refused. */
  lemma UpdateCheckOrder(quotes: QuoteTable, links: map<Id, Link>, products: set<Id>, product: Id, link: Id, id: Id,
                         t: Terms, version: int)
    requires FindQuote(quotes, links, products, product, link, id, false).Ok?
    requires quotes[id].status == Approved
    ensures version != quotes[id].version ==> UpdateOutcome(quotes, links, products, product, link, id, t, version).Conflict?
    ensures version == quotes[id].version ==> UpdateOutcome(quotes, links, products, product, link, id, t, version).InvalidArgument?
  {
  }

  /** A soft-deleted quote is out of reach of update, of a second soft delete and of the
      default lookups, and still found when deleted rows are asked for. */
  lemma DeletedQuoteHidden(quotes: QuoteTable, links: map<Id, Link>, products: set<Id>, product: Id, link: Id, id: Id,
                           actor: Option<string>, now: int, t: Terms, version: int)
    requires FindByProductAndLinkAndId(quotes, links, product, link, id, false).Some?
    ensures var after := quotes[id := SoftDeleted(quotes[id], actor, now)];
      && FindByProductAndLinkAndId(after, links, product, link, id, false).None?
      && FindByProductAndLinkAndId(after, links, product, link, id, true) == Some(after[id])
      && UpdateOutcome(after, links, products, product, link, id, t, version).NotFound?
      && id !in ListByLinkId(after, link, false) && id in ListByLinkId(after, link, true)
  {
  }

  /** A status change looks at no other quote: approving one quote is unaffected by any other
      quote of the product, approved or not, so several links may hold approved quotes. */
  lemma StatusIgnoresOtherQuotes(quotes: QuoteTable, links: map<Id, Link>, products: set<Id>, product: Id, link: Id,
                                 id: Id, other: Id, q: Quote, command: Option<StatusCommand>, today: int, now: int)
    requires other != id
    ensures StatusOutcome(quotes[other := q], links, products, product, link, id, command, today, now)
         == StatusOutcome(quotes, links, products, product, link, id, command, today, now)
  {
    var after := quotes[other := q];
    assert FindQuote(after, links, products, product, link, id, false)
        == FindQuote(quotes, links, products, product, link, id, false);
  }

  // ---------------------------------------------------------------------------------
  // The engine's invariant and its preservation.

  /** What every stored quote satisfies: never DRAFT, a submission time, a review time once
      reviewed, a deletion time once deleted. */
  predicate WellFormed(q: Quote)
  {
    q.status != Draft && q.submittedAt.Some? && (Reviewing(q.status) ==> q.reviewedAt.Some?)
    && (q.deleted ==> q.deletedAt.Some?)
  }

  ghost predicate EngineInvariant(quotes: QuoteTable, nextId: nat)
  {
    (forall id | id in quotes :: id < nextId && WellFormed(quotes[id])) && UniqueVersions(quotes)
  }

  lemma CreatePreservesInvariant(quotes: QuoteTable, nextId: nat, links: map<Id, Link>, product: Id, link: Id,
                                 t: Terms, now: int)
    requires EngineInvariant(quotes, nextId)
    requires CreateOutcome(quotes, links, product, link, t, now).Ok?
    ensures EngineInvariant(quotes[nextId := CreateOutcome(quotes, links, product, link, t, now).value], nextId + 1)
  {
    var after := quotes[nextId := NewQuote(link, t, now)];
    forall i, j | i in after && j in after && i != j
      ensures !SameKey(after[j], after[i].link, after[i].terms.quoteNumber, after[i].terms.versionNumber)
    {
      if i == nextId {
        assert j in quotes;
      } else if j == nextId {
        assert i in quotes;
      }
    }
  }

  /** A table change that keeps every quote's link and uniqueness key keeps uniqueness. */
  lemma SameKeysPreserveUniqueness(quotes: QuoteTable, id: Id, q: Quote)
    requires UniqueVersions(quotes) && id in quotes
    requires q.link == quotes[id].link && q.terms.quoteNumber == quotes[id].terms.quoteNumber
    requires q.terms.versionNumber == quotes[id].terms.versionNumber
    ensures UniqueVersions(quotes[id := q])
  {
    var after := quotes[id := q];
    forall i, j | i in after && j in after && i != j
      ensures !SameKey(after[j], after[i].link, after[i].terms.quoteNumber, after[i].terms.versionNumber)
    {
      assert !SameKey(quotes[j], quotes[i].link, quotes[i].terms.quoteNumber, quotes[i].terms.versionNumber);
    }
  }

  lemma UpdatePreservesInvariant(quotes: QuoteTable, nextId: nat, links: map<Id, Link>, products: set<Id>, product: Id,
                                 link: Id, id: Id, t: Terms, version: int)
    requires EngineInvariant(quotes, nextId)
    requires UpdateOutcome(quotes, links, products, product, link, id, t, version).Ok?
    ensures EngineInvariant(quotes[id := UpdateOutcome(quotes, links, products, product, link, id, t, version).value],
                            nextId)
  {
    var q := UpdateOutcome(quotes, links, products, product, link, id, t, version).value;
    var after := quotes[id := q];
    UniqueForMeaning(quotes, link, t, Some(id));
    forall i, j | i in after && j in after && i != j
      ensures !SameKey(after[j], after[i].link, after[i].terms.quoteNumber, after[i].terms.versionNumber)
    {
      if i == id {
        assert !SameKey(quotes[j], link, t.quoteNumber, t.versionNumber);
      } else if j == id {
        assert !SameKey(quotes[i], link, t.quoteNumber, t.versionNumber);
      } else {
        assert !SameKey(quotes[j], quotes[i].link, quotes[i].terms.quoteNumber, quotes[i].terms.versionNumber);
      }
    }
  }

  lemma StatusPreservesInvariant(quotes: QuoteTable, nextId: nat, links: map<Id, Link>, products: set<Id>, product: Id,
                                 link: Id, id: Id, command: Option<StatusCommand>, today: int, now: int)
    requires EngineInvariant(quotes, nextId)
    requires StatusOutcome(quotes, links, products, product, link, id, command, today, now).Ok?
    ensures EngineInvariant(quotes[id := StatusOutcome(quotes, links, products, product, link, id, command,
                                                       today, now).value], nextId)
  {
    var q := StatusOutcome(quotes, links, products, product, link, id, command, today, now).value;
    assert q.status != Draft by {
      assert quotes[id].status != Draft;
    }
    SameKeysPreserveUniqueness(quotes, id, q);
  }

  lemma SoftDeletePreservesInvariant(quotes: QuoteTable, nextId: nat, id: Id, actor: Option<string>, now: int)
    requires EngineInvariant(quotes, nextId) && id in quotes
    ensures EngineInvariant(quotes[id := SoftDeleted(quotes[id], actor, now)], nextId)
  {
    SameKeysPreserveUniqueness(quotes, id, SoftDeleted(quotes[id], actor, now));
  }

  // ---------------------------------------------------------------------------------
  // The engine.

  /** The quote table with its id counter. Links and products belong to other services and
      are passed in as they stand. */
  class QuoteEngine {
    var quotes: QuoteTable
    var nextId: nat

    ghost predicate Valid()
      reads this
    {
      EngineInvariant(quotes, nextId)
    }

    constructor ()
      ensures Valid() && quotes == map[] && nextId == 0
    {
      quotes := map[];
      nextId := 0;
    }

    /** listByLink: NotFound for an unknown product or a link outside it. */
    function ListByLink(links: map<Id, Link>, products: set<Id>, product: Id, link: Id, includeDeleted: bool)
      : (r: Outcome<seq<Id>>)
      reads this
      ensures r.Ok? || r.NotFound?
      ensures r.Ok? <==> product in products && link in links && links[link].product == product
      ensures r.Ok? ==> forall id :: id in r.value <==>
        id in quotes && quotes[id].link == link && Shown(quotes[id], includeDeleted)
      ensures r.Ok? ==> StrictlyDecreasing(r.value)
    {
      if product !in products then NotFound
      else if LinkOf(links, product, link).NotFound? then NotFound
      else Ok(ListByLinkId(quotes, link, includeDeleted))
    }

    /** listByProduct: NotFound for an unknown product. */
    function ListByProduct(links: map<Id, Link>, products: set<Id>, product: Id, includeDeleted: bool)
      : (r: Outcome<seq<Id>>)
      reads this
      ensures r.Ok? || r.NotFound?
      ensures r.Ok? <==> product in products
      ensures r.Ok? ==> forall id :: id in r.value <==>
        id in quotes && OfProduct(links, quotes[id], product) && Shown(quotes[id], includeDeleted)
      ensures r.Ok? ==> StrictlyDecreasing(r.value)
    {
      if product !in products then NotFound else Ok(ListByProductId(quotes, links, product, includeDeleted))
    }

    function FindById(links: map<Id, Link>, products: set<Id>, product: Id, link: Id, id: Id, includeDeleted: bool)
      : (r: Outcome<Quote>)
      reads this
      ensures r.Ok? || r.NotFound?
      ensures r.Ok? <==>
        (product in products && id in quotes && quotes[id].link == link
         && OfProduct(links, quotes[id], product) && Shown(quotes[id], includeDeleted))
      ensures r.Ok? ==> r.value == quotes[id]
    {
      FindQuote(quotes, links, products, product, link, id, includeDeleted)
    }

    method Create(links: map<Id, Link>, product: Id, link: Id, t: Terms, now: int) returns (r: Outcome<Id>)
      requires Valid()
      modifies this
      ensures Valid()
      ensures r == CreateOutcome(old(quotes), links, product, link, t, now).Forward(old(nextId))
      ensures r.Ok? ==>
        (quotes == old(quotes)[old(nextId) := CreateOutcome(old(quotes), links, product, link, t, now).value]
         && nextId == old(nextId) + 1)
      ensures !r.Ok? ==> quotes == old(quotes) && nextId == old(nextId)
    {
      if SourcingRepository.FindByProductIdAndId(links, product, link).None? {
        return NotFound;
      }
      var duplicate := FindByLinkAndQuoteAndVersion(quotes, link, t.quoteNumber, t.versionNumber);
      if duplicate.Some? {
        return InvalidArgument;
      }
      CreatePreservesInvariant(quotes, nextId, links, product, link, t, now);
      var q := Quote(link, t, Submitted, None, Some(now), None, None, None, false, None, None, 0);
      quotes := quotes[nextId := q];
      r := Ok(nextId);
      nextId := nextId + 1;
    }

    method Update(links: map<Id, Link>, products: set<Id>, product: Id, link: Id, id: Id, t: Terms, version: int)
      returns (r: Outcome<Quote>)
      requires Valid()
      modifies this
      ensures Valid()
      ensures r == UpdateOutcome(old(quotes), links, products, product, link, id, t, version)
      ensures r.Ok? ==> quotes == old(quotes)[id := r.value]
      ensures !r.Ok? ==> quotes == old(quotes)
      ensures nextId == old(nextId)
    {
      var found := FindQuote(quotes, links, products, product, link, id, false);
      if !found.Ok? {
        return NotFound;
      }
      var q := found.value;
      if q.version != version {
        return Conflict;
      }
      if q.status == Approved {
        return InvalidArgument;
      }
      var duplicate := FindByLinkAndQuoteAndVersion(quotes, link, t.quoteNumber, t.versionNumber);
      if duplicate.Some? && duplicate.value != id {
        return InvalidArgument;
      }
      UpdatePreservesInvariant(quotes, nextId, links, products, product, link, id, t, version);
      var currency := if t.currencyCode.Some? then Some(ToUpper(t.currencyCode.value)) else None;
      q := q.(terms := t.(currencyCode := currency), version := q.version + 1);
      quotes := quotes[id := q];
      r := Ok(q);
    }

    method UpdateStatus(links: map<Id, Link>, products: set<Id>, product: Id, link: Id, id: Id,
                        command: Option<StatusCommand>, today: int, now: int) returns (r: Outcome<Quote>)
      requires Valid()
      modifies this
      ensures Valid()
      ensures r == StatusOutcome(old(quotes), links, products, product, link, id, command, today, now)
      ensures r.Ok? ==> quotes == old(quotes)[id := r.value]
      ensures !r.Ok? ==> quotes == old(quotes)
      ensures nextId == old(nextId)
    {
      if command.None? || command.value.status.None? {
        return InvalidArgument;
      }
      var found := FindQuote(quotes, links, products, product, link, id, false);
      if !found.Ok? {
        return NotFound;
      }
      var q := found.value;
      var current := q.status;
      var target := command.value.status.value;
      if current != target && target !in Transitions(current) {
        return InvalidArgument;
      }
      if target == Approved && q.terms.validTo.Some? && q.terms.validTo.value < today {
        return InvalidArgument;
      }
      StatusPreservesInvariant(quotes, nextId, links, products, product, link, id, command, today, now);
      q := q.(status := target);
      if target == Submitted {
        q := q.(submittedAt := Some(now), submittedBy := command.value.actor);
      }
      if target == UnderReview || target == Approved || target == Rejected {
        q := q.(reviewedAt := Some(now), reviewedBy := command.value.actor);
      }
      q := q.(approvalComment := command.value.comment, version := q.version + 1);
      quotes := quotes[id := q];
      r := Ok(q);
    }

    /** softDelete: only a live quote under that link of that product; no product lookup. */
    method SoftDelete(links: map<Id, Link>, product: Id, link: Id, id: Id, actor: Option<string>, now: int)
      returns (deleted: bool)
      requires Valid()
      modifies this
      ensures Valid()
      ensures deleted <==> old(FindByProductAndLinkAndId(quotes, links, product, link, id, false)).Some?
      ensures deleted ==> quotes == old(quotes)[id := SoftDeleted(old(quotes)[id], actor, now)]
      ensures !deleted ==> quotes == old(quotes)
      ensures nextId == old(nextId)
    {
      var found := FindByProductAndLinkAndId(quotes, links, product, link, id, false);
      if found.None? {
        return false;
      }
      SoftDeletePreservesInvariant(quotes, nextId, id, actor, now);
      var q := found.value;
      q := q.(deleted := true, deletedAt := Some(now), deletedBy := actor, version := q.version + 1);
      quotes := quotes[id := q];
      deleted := true;
    }
  }
}
