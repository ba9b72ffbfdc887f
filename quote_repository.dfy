/** VendorQuoteRepository: the queries over the quote table. Ids are issued in creation
    order, so "order by createdAt desc" is "ids strictly decreasing". */
module QuoteRepository {
  import opened Common
  import opened Ordering
  import opened SourcingModel
  import opened QuoteModel

  type QuoteTable = map<Id, Quote>

  /** The deleted filter: a quote is listed when deleted rows are asked for or it is live. */
  predicate Shown(q: Quote, includeDeleted: bool)
  {
    includeDeleted || !q.deleted
  }

  /** The product a quote belongs to through its link. */
  predicate OfProduct(links: map<Id, Link>, q: Quote, product: Id)
  {
    q.link in links && links[q.link].product == product
  }

  /** The ids of the live quotes. */
  function LiveIds(quotes: QuoteTable): set<Id>
  {
    set id | id in quotes && !quotes[id].deleted
  }

  /** listByLinkId: the quotes of the link, newest first, deleted ones only when asked. */
  function ListByLinkId(quotes: QuoteTable, link: Id, includeDeleted: bool): (r: seq<Id>)
    ensures forall id :: id in r <==> id in quotes && quotes[id].link == link && Shown(quotes[id], includeDeleted)
    ensures StrictlyDecreasing(r)
  {
    NewestFirst(set id | id in quotes && quotes[id].link == link && Shown(quotes[id], includeDeleted))
  }

  /** listByProductId: the quotes whose link belongs to the product, newest first. */
  function ListByProductId(quotes: QuoteTable, links: map<Id, Link>, product: Id, includeDeleted: bool)
    : (r: seq<Id>)
    ensures forall id :: id in r <==>
      id in quotes && OfProduct(links, quotes[id], product) && Shown(quotes[id], includeDeleted)
    ensures StrictlyDecreasing(r)
  {
    NewestFirst(set id | id in quotes && OfProduct(links, quotes[id], product) && Shown(quotes[id], includeDeleted))
  }

  /** findByProductAndLinkAndId: the quote, provided it hangs under that link of that
      product and the deleted filter lets it through. */
  function FindByProductAndLinkAndId(quotes: QuoteTable, links: map<Id, Link>, product: Id, link: Id, id: Id,
                                     includeDeleted: bool): (r: Option<Quote>)
    ensures r.Some? <==> id in quotes && quotes[id].link == link && OfProduct(links, quotes[id], product)
                         && Shown(quotes[id], includeDeleted)
    ensures r.Some? ==> r.value == quotes[id]
  {
    if id in quotes && quotes[id].link == link && link in links && links[link].product == product
       && Shown(quotes[id], includeDeleted)
    then Some(quotes[id])
    else None
  }

  /** The match of findByLinkAndQuoteAndVersion. A null quote number compares as SQL NULL
      and so matches nothing. The deleted flag plays no part. */
  predicate SameKey(q: Quote, link: Id, quoteNumber: Option<string>, versionNumber: int)
  {
    q.link == link && quoteNumber.Some? && q.terms.quoteNumber == quoteNumber && q.terms.versionNumber == versionNumber
  }

  /** findByLinkAndQuoteAndVersion: the first quote of the link with that number and version. */
  function FindByLinkAndQuoteAndVersion(quotes: QuoteTable, link: Id, quoteNumber: Option<string>, versionNumber: int)
    : (r: Option<Id>)
    ensures r.None? <==> forall id | id in quotes :: !SameKey(quotes[id], link, quoteNumber, versionNumber)
    ensures r.Some? ==> r.value in quotes && SameKey(quotes[r.value], link, quoteNumber, versionNumber)
  {
    var matches := set id | id in quotes && SameKey(quotes[id], link, quoteNumber, versionNumber);
    assert forall id | id in quotes && SameKey(quotes[id], link, quoteNumber, versionNumber) :: id in matches;
    First(matches)
  }

  /** Soft-deleting (or restoring) a quote does not change what the duplicate lookup finds. */
  lemma FindByKeyIgnoresDeleted(quotes: QuoteTable, id: Id, deleted: bool,
                                link: Id, quoteNumber: Option<string>, versionNumber: int)
    requires id in quotes
    ensures FindByLinkAndQuoteAndVersion(quotes[id := quotes[id].(deleted := deleted)], link, quoteNumber, versionNumber)
         == FindByLinkAndQuoteAndVersion(quotes, link, quoteNumber, versionNumber)
  {
    var after := quotes[id := quotes[id].(deleted := deleted)];
    var before := set x | x in quotes && SameKey(quotes[x], link, quoteNumber, versionNumber);
    var now := set x | x in after && SameKey(after[x], link, quoteNumber, versionNumber);
    assert now == before;
    assert FindByLinkAndQuoteAndVersion(after, link, quoteNumber, versionNumber) == First(now);
    assert FindByLinkAndQuoteAndVersion(quotes, link, quoteNumber, versionNumber) == First(before);
  }

  /** The default list of a link is the includeDeleted list with the deleted rows dropped,
      in the same order. */
  lemma ListByLinkIdHidesOnlyDeleted(quotes: QuoteTable, link: Id)
    ensures ListByLinkId(quotes, link, false) == Keep(ListByLinkId(quotes, link, true), LiveIds(quotes))
    ensures forall id | id in ListByLinkId(quotes, link, true) ::
      id !in ListByLinkId(quotes, link, false) <==> quotes[id].deleted
  {
    DecreasingUnique(ListByLinkId(quotes, link, false), Keep(ListByLinkId(quotes, link, true), LiveIds(quotes)));
  }

  /** The same for the quotes of a product. */
  lemma ListByProductIdHidesOnlyDeleted(quotes: QuoteTable, links: map<Id, Link>, product: Id)
    ensures ListByProductId(quotes, links, product, false)
         == Keep(ListByProductId(quotes, links, product, true), LiveIds(quotes))
    ensures forall id | id in ListByProductId(quotes, links, product, true) ::
      id !in ListByProductId(quotes, links, product, false) <==> quotes[id].deleted
  {
    DecreasingUnique(ListByProductId(quotes, links, product, false),
                     Keep(ListByProductId(quotes, links, product, true), LiveIds(quotes)));
  }
}
