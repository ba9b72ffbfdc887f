/** End-to-end flows replayed against fresh service objects: those of the quote and line
    resource tests, and flows through the sourcing and product image operations. Each method
    answers the HTTP status codes the resources would send. */
module Scenarios {
  import opened Common
  import opened SourcingModel
  import opened QuoteModel
  import opened QuoteRequests
  import opened SourcingService
  import opened QuoteService
  import opened QuoteRepository
  import opened LineService
  import opened Records
  import opened Text
  import opened ImageStorage
  import opened ProductService
  import Ordering

  const NoMeta := LinkMeta(None, None, None, None, false, None, None, None)

  /** The quote payload the tests send: number, version number, unit cost and an end of validity. */
  function QuoteTerms(number: string, versionNumber: int, unitCost: int, validTo: int): Terms
  {
    EmptyTerms.(quoteNumber := Some(number), versionNumber := versionNumber, currencyCode := Some("usd"),
                unitCost := Some(unitCost), validTo := Some(validTo))
  }

  /** The link table after the single link of product 7 to vendor 3 has been created. */
  const Fixture: map<Id, Link> := map[0 := Link(7, 3, false, NoMeta, 0)]

  /** The test set-up: product 7, vendor 3, and a link between them through the registry. */
  method LinkFixture() returns (links: map<Id, Link>)
    ensures links == Fixture
  {
    var registry := new SourcingRegistry();
    var link := registry.Create({7}, {3}, 7, LinkRequest(Some(3), false, NoMeta));
    links := registry.links;
  }

  /** A strictly decreasing list whose members are exactly `x` is `[x]`. */
  lemma SingleList(s: seq<Id>, x: Id)
    requires Ordering.StrictlyDecreasing(s)
    requires forall y :: y in s <==> y == x
    ensures s == [x]
  {
    assert x in s;
    HeadsAreMembers(s);
    if |s| >= 2 {
      assert false;
    }
  }

  lemma HeadsAreMembers(s: seq<Id>)
    ensures |s| >= 1 ==> s[0] in s
    ensures |s| >= 2 ==> s[1] in s
  {
  }

  /** POST of a first quote on the link, then the default listing. */
  method CreateStep(engine: QuoteEngine, t: Terms, now: int) returns (code: int, listed: nat, q: Quote)
    requires engine.Valid() && engine.quotes == map[] && engine.nextId == 0
    modifies engine
    ensures engine.Valid() && engine.quotes == map[0 := q] && engine.nextId == 1
    ensures q == NewQuote(0, t, now) && code == 201 && listed == 1
  {
    var created := engine.Create(Fixture, 7, 0, t, now);
    q := NewQuote(0, t, now);
    assert created == Ok(0);
    code := HttpStatus(created, 201);
    var list := engine.ListByLink(Fixture, {7}, 7, 0, false);
    SingleList(list.value, 0);
    listed := |list.value|;
  }

  /** PUT of new terms on the only quote, with the version the caller last saw. */
  method UpdateStep(engine: QuoteEngine, q: Quote, t: Terms, version: int) returns (code: int, next: Quote)
    requires engine.Valid() && engine.quotes == map[0 := q] && !q.deleted && q.link == 0
    modifies engine
    ensures engine.Valid() && engine.quotes == map[0 := next] && engine.nextId == old(engine.nextId)
    ensures version != q.version ==> code == 409 && next == q
    ensures version == q.version && q.status == Approved ==> code == 400 && next == q
    ensures version == q.version && q.status != Approved ==>
      code == 200 && next == q.(terms := StoredTerms(t), version := q.version + 1)
  {
    var r := engine.Update(Fixture, {7}, 7, 0, 0, t, version);
    assert FindQuote(map[0 := q], Fixture, {7}, 7, 0, 0, false) == Ok(q);
    next := if r.Ok? then r.value else q;
    code := HttpStatus(r, 200);
  }

  /** PATCH of the status of the only quote. */
  method MoveStep(engine: QuoteEngine, q: Quote, command: StatusCommand, today: int, now: int)
    returns (code: int, next: Quote)
    requires engine.Valid() && engine.quotes == map[0 := q] && !q.deleted && q.link == 0
    requires command.status.Some?
    modifies engine
    ensures engine.Valid() && engine.quotes == map[0 := next] && engine.nextId == old(engine.nextId)
    ensures var target := command.status.value;
      if MayMove(q.status, target) && !(target == Approved && Expired(q.terms, today))
      then code == 200 && next == Transitioned(q, target, command.actor, command.comment, now)
      else code == 400 && next == q
  {
    var r := engine.UpdateStatus(Fixture, {7}, 7, 0, 0, Some(command), today, now);
    assert FindQuote(map[0 := q], Fixture, {7}, 7, 0, 0, false) == Ok(q);
    next := if r.Ok? then r.value else q;
    code := HttpStatus(r, 200);
  }

  /** DELETE of the only quote, then GET and both listings. */
  method DeleteStep(engine: QuoteEngine, q: Quote, actor: string, now: int)
    returns (deleteCode: int, fetchCode: int, listed: nat, listedAll: nat)
    requires engine.Valid() && engine.quotes == map[0 := q] && !q.deleted && q.link == 0
    modifies engine
    ensures engine.Valid() && engine.quotes == map[0 := SoftDeleted(q, Some(actor), now)]
    ensures deleteCode == 204 && fetchCode == 404 && listed == 0 && listedAll == 1
  {
    assert FindByProductAndLinkAndId(map[0 := q], Fixture, 7, 0, 0, false) == Some(q);
    var deleted := engine.SoftDelete(Fixture, 7, 0, 0, Some(actor), now);
    deleteCode := if deleted then 204 else 404;
    var fetched := engine.FindById(Fixture, {7}, 7, 0, 0, false);
    fetchCode := HttpStatus(fetched, 200);
    var list := engine.ListByLink(Fixture, {7}, 7, 0, false);
    if list.value != [] {
      assert false;
    }
    listed := |list.value|;
    var all := engine.ListByLink(Fixture, {7}, 7, 0, true);
    SingleList(all.value, 0);
    listedAll := |all.value|;
  }

  /** Create, list, update, review, approve, refused update, soft delete, then the deleted
      quote is gone from the default lookups and still listed with includeDeleted. */
  method QuoteLifecycleFlow() returns (codes: seq<int>, listedBefore: nat, listedAfter: nat, listedAll: nat)
    ensures codes == [201, 200, 200, 200, 400, 204, 404]
    ensures listedBefore == 1 && listedAfter == 0 && listedAll == 1
  {
    var today, now := 100, 1000;
    var engine := new QuoteEngine();
    var first, second := QuoteTerms("Q-100", 1, 11, today + 30), QuoteTerms("Q-100", 1, 12, today + 30);
    var created, q;
    created, listedBefore, q := CreateStep(engine, first, now);
    var updated;
    updated, q := UpdateStep(engine, q, second, 0);
    var reviewed;
    reviewed, q := MoveStep(engine, q, StatusCommand(Some(UnderReview), Some("sourcing_user"), Some("Comparing")),
                            today, now + 1);
    var approved;
    approved, q := MoveStep(engine, q, StatusCommand(Some(Approved), Some("sourcing_user"), Some("Approved quote")),
                            today, now + 2);
    var refused;
    refused, q := UpdateStep(engine, q, second, 3);
    var deleted, fetched;
    deleted, fetched, listedAfter, listedAll := DeleteStep(engine, q, "qa-user", now + 3);
    codes := [created, updated, reviewed, approved, refused, deleted, fetched];
  }

  /** Quote Q-100 version 1: a stale update conflicts, the current one goes through, and once
      approved the quote cannot be edited. */
  method StaleQuoteUpdateFlow() returns (codes: seq<int>)
    ensures codes == [201, 409, 200, 200, 200, 400]
  {
    var engine := new QuoteEngine();
    var t := QuoteTerms("Q-100", 1, 10, 50);
    var created, listed, q := CreateStep(engine, t, 5);
    var stale, current, reviewed, approved, refused;
    stale, q := UpdateStep(engine, q, t, 999);
    current, q := UpdateStep(engine, q, t, 0);
    reviewed, q := MoveStep(engine, q, StatusCommand(Some(UnderReview), None, None), 10, 6);
    approved, q := MoveStep(engine, q, StatusCommand(Some(Approved), None, None), 10, 7);
    refused, q := UpdateStep(engine, q, t, 3);
    codes := [created, stale, current, reviewed, approved, refused];
  }

  /** An unknown quote is 404; SUBMITTED to DRAFT, the approval of a quote that expired
      yesterday and a second quote with the same number and version are all 400. */
  method ValidationAndNotFoundFlow() returns (codes: seq<int>)
    ensures codes == [404, 201, 400, 400, 400]
  {
    var today := 100;
    var links := LinkFixture();
    var engine := new QuoteEngine();
    var missing := engine.FindById(links, {7}, 7, 0, 42, false);
    var t := QuoteTerms("Q-400", 1, 8, today - 1);
    var created, listed, q := CreateStep(engine, t, 5);
    var toDraft, expired;
    toDraft, q := MoveStep(engine, q, StatusCommand(Some(Draft), Some("vendor-user"), None), today, 6);
    expired, q := MoveStep(engine, q, StatusCommand(Some(Approved), Some("sourcing-user"), None), today, 7);
    assert SameKey(engine.quotes[0], 0, Some("Q-400"), 1);
    var duplicate := engine.Create(links, 7, 0, QuoteTerms("Q-400", 1, 9, today + 10), 8);
    codes := [HttpStatus(missing, 200), created, toDraft, expired, HttpStatus(duplicate, 201)];
  }

  /** The first and second links of product 1, to vendors 2 and 3; the first is primary. */
  const FirstLink := Link(1, 2, true, NoMeta, 0)
  const SecondLink := Link(1, 3, false, NoMeta, 0)

  /** The creations of the primary-vendor flow: a duplicate pair and a second primary are refused. */
  method PrimaryCreateSteps(registry: SourcingRegistry) returns (codes: seq<int>)
    requires registry.Valid() && registry.links == map[] && registry.nextId == 0
    modifies registry
    ensures registry.Valid() && registry.links == map[0 := FirstLink, 1 := SecondLink] && registry.nextId == 2
    ensures codes == [201, 400, 400, 201]
  {
    var products, vendors := {1}, {2, 3};
    var first := registry.Create(products, vendors, 1, LinkRequest(Some(2), true, NoMeta));
    assert registry.links == map[0 := FirstLink] && registry.nextId == 1;
    var sameVendor := registry.Create(products, vendors, 1, LinkRequest(Some(2), false, NoMeta));
    assert registry.links[0].vendor == 2;
    var secondPrimary := registry.Create(products, vendors, 1, LinkRequest(Some(3), true, NoMeta));
    assert registry.links[0].primaryVendor;
    var second := registry.Create(products, vendors, 1, LinkRequest(Some(3), false, NoMeta));
    assert second == Ok(1);
    codes := [HttpStatus(first, 201), HttpStatus(sameVendor, 201), HttpStatus(secondPrimary, 201),
              HttpStatus(second, 201)];
  }

  /** The updates of the primary-vendor flow: the flag moves from the first link to the
      second, and a write with the version seen before that conflicts. */
  method PrimaryUpdateSteps(registry: SourcingRegistry) returns (codes: seq<int>)
    requires registry.Valid() && registry.links == map[0 := FirstLink, 1 := SecondLink]
    modifies registry
    ensures registry.Valid()
    ensures registry.links == map[0 := FirstLink.(primaryVendor := false, version := 1),
                                  1 := SecondLink.(primaryVendor := true, version := 1)]
    ensures codes == [200, 200, 409]
  {
    var a, b := FirstLink.(primaryVendor := false, version := 1), SecondLink.(primaryVendor := true, version := 1);
    var demoted := registry.Update(1, 0, LinkRequest(None, false, NoMeta), 0);
    assert demoted == Ok(a) && registry.links == map[0 := a, 1 := SecondLink];
    var promoted := registry.Update(1, 1, LinkRequest(None, true, NoMeta), 0);
    assert promoted == Ok(b) && registry.links == map[0 := a, 1 := b];
    var stale := registry.Update(1, 1, LinkRequest(None, true, NoMeta), 0);
    codes := [HttpStatus(demoted, 200), HttpStatus(promoted, 200), HttpStatus(stale, 200)];
  }

  /** Two vendors on one product: a second link for the same vendor and a second primary are
      refused; after the first link gives up the flag the second may take it, and a write with
      the version the caller saw before that moved on conflicts. */
  method PrimaryVendorFlow() returns (codes: seq<int>)
    ensures codes == [201, 400, 400, 201, 200, 200, 409]
  {
    var registry := new SourcingRegistry();
    var created := PrimaryCreateSteps(registry);
    var updated := PrimaryUpdateSteps(registry);
    codes := created + updated;
  }

  /** A line's version goes from 0 to 1 on update; version 999 is then a conflict, and a
      missing line or an empty payload are refused before any change. */
  method LineVersionFlow() returns (codes: seq<int>, version: nat)
    ensures codes == [201, 200, 409, 404, 400] && version == 1
  {
    var lines := new LineTable();
    var fields := LineFields(Some("L-1"), Some("SS25"), Some(2025), Some(1), Some(2), Some(3), None, None, None, None,
                             None);
    assert !IsWhitespace("L-1"[0]);
    var created := lines.Create(Some(fields));
    assert lines.rows == map[0 := Row(fields, 0)];
    var updated := lines.Update(0, Some(fields.(plannedUnits := Some(500))), 0);
    version := if updated.Ok? then updated.value.version else 0;
    var stale := lines.Update(0, Some(fields), 999);
    var missing := lines.Update(9, Some(fields), 1);
    var empty := lines.Update(0, None, 1);
    codes := [HttpStatus(created, 201), HttpStatus(updated, 200), HttpStatus(stale, 200), HttpStatus(missing, 200),
              HttpStatus(empty, 200)];
  }

  const ProductA := ProductFields(Some("Quote Product A"), None, None, None, None, None, None, None, None, None, None,
                                 None, 0)

  /** POST of product A on line 5. */
  method ProductCreateStep(catalog: ProductCatalog) returns (code: int, id: Id)
    requires catalog.Valid() && catalog.products == map[] && catalog.nextId == 0
    modifies catalog
    ensures id == 0 && catalog.Valid() && catalog.products == map[id := Product(ProductA, 5, None)]
    ensures code == 201
  {
    assert !IsWhitespace("Quote Product A"[0]);
    var created := catalog.Create({5}, Some(ProductRequest(ProductA, Some(5), None)));
    id := created.value.id;
    code := HttpStatus(created, 201);
  }

  /** The first upload of an image for the product. */
  method ProductUploadStep(catalog: ProductCatalog, id: Id) returns (code: int, url: Option<string>)
    requires catalog.Valid() && catalog.config == DefaultConfig && catalog.products == map[id := Product(ProductA, 5, None)]
    modifies catalog
    ensures catalog.Valid() && catalog.products == map[id := Product(ProductA, 5, Some(ObjectKey(id)))]
    ensures code == 200 && url == Some("http://localhost:9000/plm-files/" + ObjectKey(id))
  {
    var added := catalog.AddImage(id, Some([1, 2, 3]));
    assert added.Ok?;
    DefaultImageUrl(id);
    url := added.value.imageUrl;
    code := HttpStatus(added, 200);
  }

  /** The answer of the image removal endpoint: 204 when an image was removed, 404 otherwise. */
  function RemoveStatus(r: Outcome<bool>): int
  {
    if r == Ok(true) then 204 else 404
  }

  /** A second upload is refused, a replacement goes through, and only the first removal
      finds an image. */
  method ProductReplaceSteps(catalog: ProductCatalog, id: Id) returns (codes: seq<int>)
    requires catalog.Valid() && catalog.products == map[id := Product(ProductA, 5, Some(ObjectKey(id)))]
    modifies catalog
    ensures catalog.Valid() && catalog.products == map[id := Product(ProductA, 5, None)]
    ensures codes == [400, 200, 204, 404]
  {
    var p := Product(ProductA, 5, Some(ObjectKey(id)));
    assert ObjectKey(id)[0] == 'p';
    var again := catalog.AddImage(id, Some([4]));
    var replaced := catalog.UpdateImage(id, Some([4]));
    assert replaced.Ok? && catalog.products == map[id := p];
    var removed := catalog.RemoveImage(id);
    var removedAgain := catalog.RemoveImage(id);
    codes := [HttpStatus(again, 200), HttpStatus(replaced, 200), RemoveStatus(removed), RemoveStatus(removedAgain)];
  }

  /** Upload, a refused second upload, a replacement, and removal twice; the URL handed out
      names the product's object under the default bucket. */
  method ProductImageFlow() returns (codes: seq<int>, id: Id, url: Option<string>)
    ensures codes == [201, 200, 400, 200, 204, 404]
    ensures id == 0 && url == Some("http://localhost:9000/plm-files/" + ObjectKey(id))
  {
    var catalog := new ProductCatalog(DefaultConfig);
    var created, uploaded, replaced;
    created, id := ProductCreateStep(catalog);
    uploaded, url := ProductUploadStep(catalog, id);
    replaced := ProductReplaceSteps(catalog, id);
    codes := [created, uploaded] + replaced;
  }
}
