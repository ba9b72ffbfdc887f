/** The bean-validation constraints of VendorQuoteDTO's Create, Update and UpdateStatus
    records. A payload that breaks one is answered with 400 before any service runs. */
module QuoteRequests {
  import opened Common
  import opened Text
  import opened QuoteModel

  /** The constraints Create and Update share: a non-blank quote number and currency code,
      a version number of at least 1, a present non-negative unit cost, and non-negative MOQ
      and lead time. No other field is constrained. */
  predicate ValidTerms(t: Terms)
  {
    && NotBlank(t.quoteNumber)
    && t.versionNumber >= 1
    && NotBlank(t.currencyCode)
    && t.unitCost.Some? && t.unitCost.value >= 0
    && t.moq >= 0
    && t.leadTimeDays >= 0
  }

  /** The Update record: the terms plus the version the caller last saw. */
  datatype UpdateRequest = UpdateRequest(terms: Terms, version: int)

  /** The UpdateStatus record. Its version is carried but not used by the service. */
  datatype StatusRequest = StatusRequest(status: Option<Status>, comment: Option<string>, version: int)

  predicate ValidUpdate(r: UpdateRequest)
  {
    ValidTerms(r.terms)
  }

  predicate ValidStatusRequest(r: StatusRequest)
  {
    r.status.Some?
  }

  /** The answer of the validation step for a create payload. */
  function ValidateCreate(t: Terms): (r: Outcome<Terms>)
    ensures r.Ok? || r.InvalidArgument?
    ensures r.Ok? <==> NotBlank(t.quoteNumber) && NotBlank(t.currencyCode) && t.versionNumber > 0
                       && t.unitCost.Some? && t.unitCost.value >= 0 && t.moq >= 0 && t.leadTimeDays >= 0
    ensures r.Ok? ==> r.value == t
  {
    if ValidTerms(t) then Ok(t) else InvalidArgument
  }

  /** What an empty JSON object deserialises to: every reference null, every int 0. */
  const EmptyTerms := Terms(None, 0, None, None, None, 0, 0, None, None, None, None, None, None, None,
                            None, None, None, None, None, None, None, None)

  /** An empty payload is rejected with 400, on create and on update. */
  lemma EmptyPayloadRejected(version: int)
    ensures HttpStatus(ValidateCreate(EmptyTerms), 201) == 400
    ensures !ValidUpdate(UpdateRequest(EmptyTerms, version))
  {
  }

  /** Validity depends on the seven constrained fields only: sample lead time, the cost
      breakdown, capacity, payment terms, the validity window and the notes may hold any
      value, a validity window that ends before it starts included. */
  lemma UnconstrainedFieldsIgnored(t: Terms, u: Terms)
    requires t.quoteNumber == u.quoteNumber && t.versionNumber == u.versionNumber
    requires t.currencyCode == u.currencyCode && t.unitCost == u.unitCost
    requires t.moq == u.moq && t.leadTimeDays == u.leadTimeDays
    ensures ValidTerms(t) <==> ValidTerms(u)
  {
  }

  /** A concrete payload the validation lets through although its window is inverted and
      its cost breakdown negative. */
  lemma InvertedWindowAccepted()
    ensures ValidTerms(EmptyTerms.(quoteNumber := Some("Q-100"), versionNumber := 1, currencyCode := Some("usd"),
                                   unitCost := Some(0), materialCost := Some(-5), validFrom := Some(20),
                                   validTo := Some(10)))
  {
    assert "Q-100"[0] > ' ';
    assert "usd"[0] > ' ';
  }

  /** Each constraint on its own rejects a payload that meets all the others. */
  lemma EachConstraintBinds(t: Terms)
    requires ValidTerms(t)
    ensures !ValidTerms(t.(quoteNumber := None)) && !ValidTerms(t.(quoteNumber := Some(" ")))
    ensures !ValidTerms(t.(versionNumber := 0))
    ensures !ValidTerms(t.(currencyCode := None)) && !ValidTerms(t.(currencyCode := Some("")))
    ensures !ValidTerms(t.(unitCost := None)) && !ValidTerms(t.(unitCost := Some(-1)))
    ensures !ValidTerms(t.(moq := -1)) && !ValidTerms(t.(leadTimeDays := -1))
  {
  }

  /** A status payload without a status is rejected; any other one passes. */
  lemma StatusRequired(comment: Option<string>, version: int, s: Status)
    ensures !ValidStatusRequest(StatusRequest(None, comment, version))
    ensures ValidStatusRequest(StatusRequest(Some(s), comment, version))
  {
  }
}
