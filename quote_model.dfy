/** The vendor quote (VendorQuote): its commercial terms, its workflow status and the
    bookkeeping of submission, review and soft deletion. */
module QuoteModel {
  import opened Common

  datatype Status = Draft | Submitted | UnderReview | Approved | Rejected

  /** The 22 commercial fields a quote is created with and that update overwrites. Money is
      an integer; dates are day numbers. */
  datatype Terms = Terms(
    quoteNumber: Option<string>,
    versionNumber: int,
    currencyCode: Option<string>,
    incoterm: Option<string>,
    unitCost: Option<int>,
    moq: int,
    leadTimeDays: int,
    sampleLeadTimeDays: Option<int>,
    materialCost: Option<int>,
    laborCost: Option<int>,
    overheadCost: Option<int>,
    logisticsCost: Option<int>,
    dutyCost: Option<int>,
    packagingCost: Option<int>,
    marginPercent: Option<int>,
    totalCost: Option<int>,
    capacityPerMonth: Option<int>,
    paymentTerms: Option<string>,
    validFrom: Option<int>,
    validTo: Option<int>,
    complianceNotes: Option<string>,
    sustainabilityNotes: Option<string>)

  /** A stored quote. `link` is the sourcing link it was submitted against; its product is
      the link's product. */
  datatype Quote = Quote(
    link: Id,
    terms: Terms,
    status: Status,
    submittedBy: Option<string>,
    submittedAt: Option<int>,
    reviewedBy: Option<string>,
    reviewedAt: Option<int>,
    approvalComment: Option<string>,
    deleted: bool,
    deletedBy: Option<string>,
    deletedAt: Option<int>,
    version: nat)

  /** The status command: target status (may be absent), acting identity and comment. */
  datatype StatusCommand = StatusCommand(status: Option<Status>, actor: Option<string>, comment: Option<string>)
}
