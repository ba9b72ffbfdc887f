# A verified model of the test-plm sourcing and quote core

test-plm is a product-lifecycle backend (Quarkus, Panache, S3 object storage). This
project models in Dafny the parts of it that hold business rules:

- **Quote lifecycle engine** (`VendorQuoteService`). Vendor quotes hang under a
  product–vendor sourcing link. The engine:
  - keeps (quote number, version number) unique per link, with deleted quotes counted;
  - runs the SUBMITTED / UNDER_REVIEW / APPROVED / REJECTED workflow, which gives DRAFT no
    way in;
  - refuses approval once the validity date has passed;
  - refuses to edit approved quotes;
  - checks the optimistic version on edits;
  - deletes softly.
- **Sourcing link registry** (`ProductVendorSourcingService`). It allows one link per
  (product, vendor) pair and one primary vendor per product.
- **Versioned record tables.** Lines, vendors and sizes check the caller's version on update
  and answer Conflict on a stale one. Colors check no version.
- **Products and their images** (`ProductService`). This covers the name and line checks,
  the add / replace / remove rules for the single image, and the URL handed out with every
  product.
- **The storage service's string logic** (`ProductImageStorageService`): the object key
  `products/<uuid>/image.bin`, the public URL and the percent-encoder behind it.
- **Normalisation of page and size parameters** (`Paging`).

Each service is a class whose fields are the tables it changes. Each method `ensures` that
its result and its new state equal those of a pure function of the old state
(`CreateOutcome`, `UpdateOutcome`, `StatusOutcome`, `Revised`, …). The lemmas about those
functions carry the properties: uniqueness preserved, the transition table closed under
DRAFT, check order, soft deletion hiding a quote, the encoder being reversible, object
keys being injective.

Service failures are modelled by `Outcome<T> = Ok | NotFound | InvalidArgument | Conflict`.
These stand for `NoSuchElementException`, `IllegalArgumentException` and
`OptimisticLockException`. `HttpStatus` maps them to 404 / 400 / 409, as the resources do.

Ids are naturals issued by a per-table counter. A larger id therefore means a later
creation, and "order by createdAt desc" is modelled as a strictly decreasing id list
(`Ordering.NewestFirst`).

Behaviour of the code worth noting:

- `update` checks the version before the APPROVED rule. A stale write to an approved quote
  is therefore 409, not 400.
- Quote `create` does not look up the product; it only checks that the link belongs to it.
- The quote payload checks neither `validFrom <= validTo` nor non-negative cost-breakdown
  fields.
- The currency code is upper-cased on update only. Create stores it as sent.
- `create` stamps `submittedAt` but leaves `submittedBy` unset.
- `@NotBlank` (some char above U+0020) and `String.isBlank` (Unicode whitespace) are not the
  same test. The model keeps both, and `Text.NotBlankIsNotIsBlank` shows they differ.

## Model

| member | source | states |
|---|---|---|
| Common.Forward | src/main/java/org/acme/resource/VendorQuoteResource.java:104-137 | a failure keeps its kind when an operation's result is passed on; a success carries the new value |
| Text.NotBlankIsNotIsBlank | src/main/java/org/acme/dto/VendorQuoteDTO.java:14-20 | `@NotBlank` and `isBlank` disagree in both directions (U+3000 passes the first and is blank to the second; NUL fails the first and is not blank to the second) |
| Text.NotBlankOnAscii | src/main/java/org/acme/dto/VendorQuoteDTO.java:14-20 | on ASCII text whose control chars are whitespace, `@NotBlank` holds exactly when the text is not blank |
| Text.ToUpper | src/main/java/org/acme/service/VendorQuoteService.java:99 | upper-casing keeps the length and maps each char on its own |
| Text.ToUpperMeaning | src/main/java/org/acme/service/VendorQuoteService.java:99 | no lower-case ASCII letter is left; other chars are unchanged; letters move down by 32 |
| Text.ToUpperIdempotent | src/main/java/org/acme/service/VendorQuoteService.java:99 | upper-casing twice is the same as once |
| Text.ToUpperKeepsBlankness | src/main/java/org/acme/service/VendorQuoteService.java:99 | a currency code is blank after upper-casing exactly when it was blank before |
| Paging.NormalizePage | src/main/java/org/acme/util/Paging.java:32-34 | the page is never negative; null or negative gives page 0; any other page is kept |
| Paging.NormalizeSize | src/main/java/org/acme/util/Paging.java:36-39 | the size lies in 1..100; null or non-positive gives 20; otherwise the smaller of the request and 100 |
| Paging.NormalizeIdempotent | src/main/java/org/acme/util/Paging.java:32-39 | normalising a normalised value changes nothing |
| Paging.NormalizeFixedPoints | src/main/java/org/acme/util/Paging.java:9-11 | a page is kept exactly when it is >= 0, and a size exactly when it is in 1..100 |
| Ordering.First | src/main/java/org/acme/repository/ProductVendorSourcingRepository.java:20-26 | `firstResult()` is None exactly on an empty match set; otherwise it is a member of the set |
| Ordering.NewestFirst | src/main/java/org/acme/repository/VendorQuoteRepository.java:12-24 | "order by createdAt desc": a strictly decreasing list holding exactly the set's ids |
| Ordering.DecreasingUnique | src/main/java/org/acme/repository/VendorQuoteRepository.java:12-24 | the ordering is determined: two strictly decreasing lists with the same elements are equal |
| Ordering.Keep | src/main/java/org/acme/repository/VendorQuoteRepository.java:12-24 | filtering a list keeps its order and keeps exactly the members in the filter |
| Ordering.NewestFirstOfSubset | src/main/java/org/acme/repository/VendorQuoteRepository.java:12-24 | listing a subset newest first is the full listing with the other ids dropped |
| SourcingRepository.ListByProductId | src/main/java/org/acme/repository/ProductVendorSourcingRepository.java:12-14 | exactly the links of the product, each unchanged |
| SourcingRepository.FindByProductIdAndId | src/main/java/org/acme/repository/ProductVendorSourcingRepository.java:16-18 | the link if it exists and belongs to the product, else nothing |
| SourcingRepository.FindByProductIdAndVendorId | src/main/java/org/acme/repository/ProductVendorSourcingRepository.java:20-22 | nothing exactly when no link joins the pair; otherwise a link joining it |
| SourcingRepository.FindPrimaryByProductId | src/main/java/org/acme/repository/ProductVendorSourcingRepository.java:24-26 | nothing exactly when the product has no primary link; otherwise a primary link of it |
| SourcingService.NoOtherPrimaryMeaning | src/main/java/org/acme/service/ProductVendorSourcingService.java:102-107 | with at most one primary per product, the check passes exactly when every primary link of the product is the current one |
| SourcingService.CreateOutcome | src/main/java/org/acme/service/ProductVendorSourcingService.java:36-54 | NotFound exactly for an unknown product or vendor; InvalidArgument exactly for a missing vendor, a duplicate pair or a second primary; otherwise the new link at version 0 |
| SourcingService.UpdateOutcome | src/main/java/org/acme/service/ProductVendorSourcingService.java:57-90 | NotFound exactly for a link outside the product; Conflict exactly for a stale version; InvalidArgument only when making it primary; otherwise only flag and metadata change, and the version moves on |
| SourcingService.UpdatePrimaryRule | src/main/java/org/acme/service/ProductVendorSourcingService.java:79-87 | with the right version, an update fails exactly when it makes the link primary while another link of the product is primary |
| SourcingService.CreatePreservesUniqueness | src/main/java/org/acme/service/ProductVendorSourcingService.java:43-48 | a successful create keeps one link per pair and one primary per product |
| SourcingService.UpdatePreservesUniqueness | src/main/java/org/acme/service/ProductVendorSourcingService.java:75-87 | a successful update keeps both uniqueness rules |
| SourcingService.SourcingRegistry.constructor | src/main/java/org/acme/service/ProductVendorSourcingService.java:30-33 | an empty registry |
| SourcingService.SourcingRegistry.ListByProduct | src/main/java/org/acme/service/ProductVendorSourcingService.java:30-33 | NotFound exactly for an unknown product; otherwise exactly its links |
| SourcingService.SourcingRegistry.Create | src/main/java/org/acme/service/ProductVendorSourcingService.java:36-54 | the answer is `CreateOutcome` with the fresh id; on success only that link is added; on failure nothing changes |
| SourcingService.SourcingRegistry.Update | src/main/java/org/acme/service/ProductVendorSourcingService.java:57-90 | the answer is `UpdateOutcome`; on success only that link is replaced; on failure nothing changes |
| SourcingService.SourcingRegistry.Delete | src/main/java/org/acme/service/ProductVendorSourcingService.java:93-100 | removed exactly when the link belongs to the product, and then the table loses only that link |
| QuoteRequests.ValidateCreate | src/main/java/org/acme/dto/VendorQuoteDTO.java:13-36 | a payload passes exactly when it has a non-blank quote number and currency, positive version number, a unit cost >= 0, and moq and lead time >= 0; it passes unchanged |
| QuoteRequests.EmptyPayloadRejected | src/test/java/org/acme/VendorQuoteResourceTest.java:164-169 | `{}` is answered with 400 on create and is invalid on update |
| QuoteRequests.UnconstrainedFieldsIgnored | src/main/java/org/acme/dto/VendorQuoteDTO.java:21-35 | validity depends on the seven constrained fields only |
| QuoteRequests.InvertedWindowAccepted | src/main/java/org/acme/dto/VendorQuoteDTO.java:21-35 | a payload whose validity ends before it starts, with a negative material cost, is accepted |
| QuoteRequests.EachConstraintBinds | src/main/java/org/acme/dto/VendorQuoteDTO.java:14-20 | breaking any one constraint of a valid payload makes it invalid |
| QuoteRequests.StatusRequired | src/main/java/org/acme/dto/VendorQuoteDTO.java:64-68 | a status payload is valid exactly when it has a status |
| QuoteRepository.ListByLinkId | src/main/java/org/acme/repository/VendorQuoteRepository.java:12-17 | exactly the link's quotes that the deleted filter lets through, newest first |
| QuoteRepository.ListByProductId | src/main/java/org/acme/repository/VendorQuoteRepository.java:19-24 | exactly the quotes whose link belongs to the product and that the filter lets through, newest first |
| QuoteRepository.FindByProductAndLinkAndId | src/main/java/org/acme/repository/VendorQuoteRepository.java:26-41 | the quote exactly when it hangs under that link of that product and passes the filter |
| QuoteRepository.FindByLinkAndQuoteAndVersion | src/main/java/org/acme/repository/VendorQuoteRepository.java:43-50 | nothing exactly when no quote of the link (deleted ones included) carries the pair; a null quote number matches nothing |
| QuoteRepository.FindByKeyIgnoresDeleted | src/main/java/org/acme/repository/VendorQuoteRepository.java:43-50 | soft-deleting or restoring a quote does not change what the duplicate lookup finds |
| QuoteRepository.ListByLinkIdHidesOnlyDeleted | src/main/java/org/acme/repository/VendorQuoteRepository.java:12-17 | the default list is the includeDeleted list minus the deleted quotes, in the same order |
| QuoteRepository.ListByProductIdHidesOnlyDeleted | src/main/java/org/acme/repository/VendorQuoteRepository.java:19-24 | the same for the product's list |
| QuoteService.Transitions | src/main/java/org/acme/service/VendorQuoteService.java:26-37 | no status leads to DRAFT; no entry is a self-loop; APPROVED is reachable exactly from SUBMITTED and UNDER_REVIEW |
| QuoteService.Transitioned | src/main/java/org/acme/service/VendorQuoteService.java:144-153 | the new status and comment, the submit stamp exactly on SUBMITTED and the review stamp exactly on the review statuses, everything else kept |
| QuoteService.WalkNeverReachesDraft | src/main/java/org/acme/service/VendorQuoteService.java:26-37 | no run of status requests brings a quote back to DRAFT |
| QuoteService.WorkflowReachability | src/main/java/org/acme/service/VendorQuoteService.java:26-37 | review-then-approve, the reject / resubmit loop and reopening an approved quote are allowed; DRAFT is ignored |
| QuoteService.LinkOf | src/main/java/org/acme/service/VendorQuoteService.java:190-196 | the link exactly when it belongs to the product; otherwise NotFound |
| QuoteService.FindQuote | src/main/java/org/acme/service/VendorQuoteService.java:59-67 | the quote exactly when product, link and quote line up and the filter lets it through; every miss is NotFound |
| QuoteService.UniqueForMeaning | src/main/java/org/acme/service/VendorQuoteService.java:171-180 | on a duplicate-free table the check passes exactly when every quote with the pair is the one being edited |
| QuoteService.CreateOutcome | src/main/java/org/acme/service/VendorQuoteService.java:70-81 | NotFound exactly for a link outside the product; InvalidArgument exactly for a taken pair; otherwise a live SUBMITTED quote at version 0 with the submit time and no submitter |
| QuoteService.StoredTerms | src/main/java/org/acme/service/VendorQuoteService.java:97-118 | the terms as sent, except that a present currency code is upper-cased |
| QuoteService.UpdateOutcome | src/main/java/org/acme/service/VendorQuoteService.java:84-121 | NotFound exactly when no live quote is found; Conflict exactly on a stale version; with the current version, InvalidArgument exactly for an APPROVED quote or a pair another quote holds; otherwise only the terms change (currency upper-cased), and the version moves on |
| QuoteService.StatusOutcome | src/main/java/org/acme/service/VendorQuoteService.java:124-156 | a missing status is InvalidArgument before any lookup; NotFound exactly on a miss; success exactly for a found quote and an allowed move that is not the approval of an expired quote, and the result is then `Transitioned` |
| QuoteService.SoftDeleted | src/main/java/org/acme/service/VendorQuoteService.java:159-169 | the quote is marked deleted with actor and time; status, terms and link are kept |
| QuoteService.InvalidTransitionRejected | src/main/java/org/acme/service/VendorQuoteService.java:133-138 | a move outside the table is InvalidArgument |
| QuoteService.ExpiredApprovalRejected | src/main/java/org/acme/service/VendorQuoteService.java:140-142 | approving a quote whose validity ended before today fails, even if the quote is already APPROVED |
| QuoteService.ApprovalOnLastValidDay | src/main/java/org/acme/service/VendorQuoteService.java:140-142 | a quote valid up to today itself can be approved |
| QuoteService.UpdateCheckOrder | src/main/java/org/acme/service/VendorQuoteService.java:87-93 | on an approved quote a stale version is Conflict and the current version is InvalidArgument |
| QuoteService.DeletedQuoteHidden | src/main/java/org/acme/service/VendorQuoteService.java:159-169 | after a soft delete the quote is gone from findById, update and the default list, and still found with includeDeleted |
| QuoteService.StatusIgnoresOtherQuotes | src/test/java/org/acme/VendorQuoteResourceTest.java:115-155 | a status change does not depend on any other quote, so several links of a product may hold approved quotes |
| QuoteService.CreatePreservesInvariant | src/main/java/org/acme/service/VendorQuoteService.java:70-81 | a create keeps ids below the counter, every quote well formed (never DRAFT, stamped) and the pairs unique |
| QuoteService.SameKeysPreserveUniqueness | src/main/java/org/acme/service/VendorQuoteService.java:171-180 | replacing a quote by one with the same link and pair keeps uniqueness |
| QuoteService.UpdatePreservesInvariant | src/main/java/org/acme/service/VendorQuoteService.java:84-121 | an update keeps the invariant, the uniqueness check being what keeps the pair free |
| QuoteService.StatusPreservesInvariant | src/main/java/org/acme/service/VendorQuoteService.java:124-156 | a status change keeps the invariant |
| QuoteService.SoftDeletePreservesInvariant | src/main/java/org/acme/service/VendorQuoteService.java:159-169 | a soft delete keeps the invariant |
| QuoteService.QuoteEngine.constructor | src/main/java/org/acme/service/VendorQuoteService.java:39-46 | an empty quote table |
| QuoteService.QuoteEngine.ListByLink | src/main/java/org/acme/service/VendorQuoteService.java:48-52 | NotFound exactly for an unknown product or a foreign link; otherwise exactly the link's quotes that the deleted filter lets through, newest first |
| QuoteService.QuoteEngine.ListByProduct | src/main/java/org/acme/service/VendorQuoteService.java:54-57 | NotFound exactly for an unknown product; otherwise exactly the product's quotes that the deleted filter lets through, newest first |
| QuoteService.QuoteEngine.FindById | src/main/java/org/acme/service/VendorQuoteService.java:59-67 | the stored quote exactly when `FindQuote` finds it |
| QuoteService.QuoteEngine.Create | src/main/java/org/acme/service/VendorQuoteService.java:70-81 | the answer is `CreateOutcome` with the fresh id; on success only that quote is added; on failure nothing changes |
| QuoteService.QuoteEngine.Update | src/main/java/org/acme/service/VendorQuoteService.java:84-121 | the answer is `UpdateOutcome`; on success only that quote is replaced by it; on failure nothing changes |
| QuoteService.QuoteEngine.UpdateStatus | src/main/java/org/acme/service/VendorQuoteService.java:124-156 | the answer is `StatusOutcome`; on success only that quote is replaced by it; on failure nothing changes |
| QuoteService.QuoteEngine.SoftDelete | src/main/java/org/acme/service/VendorQuoteService.java:159-169 | deleted exactly when a live quote sits under that link of that product, and then only it is marked |
| Records.Revised | src/main/java/org/acme/service/LineService.java:47-73 | InvalidArgument exactly without a payload; NotFound exactly for a missing row; Conflict exactly for a stale expected version; otherwise the payload at the next version |
| Records.StaleUpdateConflicts | src/test/java/org/acme/LineResourceTest.java:128-157 | of two writers who saw the same version, the first wins and the second gets Conflict |
| Records.UncheckedLastWriteWins | src/main/java/org/acme/service/ColorService.java:44-56 | without a version check the later of two updates wins |
| Records.FreshVersionAccepted | src/main/java/org/acme/service/LineService.java:55-57 | sending back the version just read always succeeds |
| Records.Removed | src/main/java/org/acme/service/LineService.java:76-82 | deletion reports whether the row existed, and removes that row and no other |
| LineService.CreateCheck | src/main/java/org/acme/service/LineService.java:32-38 | a line passes exactly when the payload is there and its line code is not blank |
| LineService.LineTable.constructor | src/main/java/org/acme/service/LineService.java:31-44 | an empty line table |
| LineService.LineTable.Create | src/main/java/org/acme/service/LineService.java:31-44 | on success the row is stored under the fresh id at version 0; on failure nothing changes |
| LineService.LineTable.Update | src/main/java/org/acme/service/LineService.java:47-73 | the answer is `Revised` with the caller's version; only that row changes |
| LineService.LineTable.Delete | src/main/java/org/acme/service/LineService.java:76-82 | the table is `Removed` of the old one |
| VendorService.CreateCheck | src/main/java/org/acme/service/VendorService.java:27-29 | a vendor passes exactly when it has a non-blank name |
| VendorService.VendorTable.constructor | src/main/java/org/acme/service/VendorService.java:26-33 | an empty vendor table |
| VendorService.VendorTable.Create | src/main/java/org/acme/service/VendorService.java:26-33 | on success the row is stored under the fresh id at version 0; on failure nothing changes |
| VendorService.VendorTable.Update | src/main/java/org/acme/service/VendorService.java:36-56 | the answer is `Revised` with the caller's version; only that row changes |
| VendorService.VendorTable.Delete | src/main/java/org/acme/service/VendorService.java:59-61 | the table is `Removed` of the old one |
| SizeService.CreateCheck | src/main/java/org/acme/service/SizeService.java:27-32 | a size range passes exactly when name and sizes are not blank |
| SizeService.SizeTable.constructor | src/main/java/org/acme/service/SizeService.java:26-36 | an empty size table |
| SizeService.SizeTable.Create | src/main/java/org/acme/service/SizeService.java:26-36 | on success the row is stored under the fresh id at version 0; on failure nothing changes |
| SizeService.SizeTable.Update | src/main/java/org/acme/service/SizeService.java:39-53 | the answer is `Revised` with the caller's version; only that row changes |
| SizeService.SizeTable.Delete | src/main/java/org/acme/service/SizeService.java:56-58 | the table is `Removed` of the old one |
| ColorService.CreateCheck | src/main/java/org/acme/service/ColorService.java:31-36 | a color passes exactly when name and RGB value are not blank |
| ColorService.ColorTable.constructor | src/main/java/org/acme/service/ColorService.java:30-40 | an empty color table |
| ColorService.ColorTable.Create | src/main/java/org/acme/service/ColorService.java:30-40 | on success the row is stored under the fresh id at version 0; on failure nothing changes |
| ColorService.ColorTable.Update | src/main/java/org/acme/service/ColorService.java:44-56 | the answer is `Revised` with no version check, so only a missing payload or row fails |
| ColorService.ColorTable.Delete | src/main/java/org/acme/service/ColorService.java:60-62 | the table is `Removed` of the old one |
| ImageStorage.Utf8 | src/main/java/org/acme/service/ProductImageStorageService.java:86 | one Java char encodes to one to three UTF-8 bytes |
| ImageStorage.EncodePath | src/main/java/org/acme/service/ProductImageStorageService.java:80-94 | the builder loop yields `Encoded(path)` |
| ImageStorage.AppendEscapes | src/main/java/org/acme/service/ProductImageStorageService.java:87-90 | the inner loop appends one `%HH` per byte |
| ImageStorage.EncodedAppend | src/main/java/org/acme/service/ProductImageStorageService.java:80-94 | the encoding of a concatenation is the concatenation of the encodings |
| ImageStorage.DecodeEncodedChar | src/main/java/org/acme/service/ProductImageStorageService.java:82-91 | decoding undoes the encoding of any char of the Basic Multilingual Plane |
| ImageStorage.DecodeEncoded | src/main/java/org/acme/service/ProductImageStorageService.java:80-94 | decoding the encoding of a path without astral chars gives the path back |
| ImageStorage.EncodedInjective | src/main/java/org/acme/service/ProductImageStorageService.java:80-94 | two different such paths never encode alike |
| ImageStorage.OutsideBasicPlaneBecomesQuestionMarks | src/main/java/org/acme/service/ProductImageStorageService.java:86 | a char above U+FFFF is written `%3F%3F`, so two different emoji encode alike |
| ImageStorage.PercentBytesAlphabet | src/main/java/org/acme/service/ProductImageStorageService.java:88-89 | escapes consist of `%` and upper-case hex digits only |
| ImageStorage.EncodedAlphabet | src/main/java/org/acme/service/ProductImageStorageService.java:80-101 | the output holds only unreserved chars, `/`, `%` and upper-case hex digits |
| ImageStorage.EncodedFixedPoint | src/main/java/org/acme/service/ProductImageStorageService.java:82-84 | a path of unreserved chars and `/` is left as it is |
| ImageStorage.EncodeCharCases | src/main/java/org/acme/service/ProductImageStorageService.java:83-91 | a kept char is copied; any other becomes `%` escapes, three chars per UTF-8 byte |
| ImageStorage.HexDigits | src/main/java/org/acme/service/ProductImageStorageService.java:61 | the digit string has the requested width and lower-case hex digits only |
| ImageStorage.HexDigitsInjective | src/main/java/org/acme/service/ProductImageStorageService.java:61 | different numbers below 16^width have different digit strings |
| ImageStorage.UuidText | src/main/java/org/acme/service/ProductImageStorageService.java:61 | the UUID text is 36 chars long |
| ImageStorage.UuidTextDigits | src/main/java/org/acme/service/ProductImageStorageService.java:61 | each of the 32 hex digits sits at its place in the 8-4-4-4-12 layout |
| ImageStorage.ObjectKeyIsFixedPoint | src/main/java/org/acme/service/ProductImageStorageService.java:60-62 | an object key needs no escaping |
| ImageStorage.ObjectKeyInjective | src/main/java/org/acme/service/ProductImageStorageService.java:60-62 | products with different UUIDs get different object keys |
| ImageStorage.TrimTrailingSlash | src/main/java/org/acme/service/ProductImageStorageService.java:56 | exactly one trailing `/` is removed, and only if present |
| ImageStorage.ImageUrl | src/main/java/org/acme/service/ProductImageStorageService.java:52-58 | no URL exactly for a null or blank reference; otherwise endpoint, bucket and the encoded reference |
| ImageStorage.ImageUrlNamesReference | src/main/java/org/acme/service/ProductImageStorageService.java:52-58 | the URL's tail after the prefix decodes back to the reference |
| ImageStorage.ImageUrlOfObjectKey | src/main/java/org/acme/service/ProductImageStorageService.java:52-62 | the URL of an uploaded image is the prefix followed by the unescaped key |
| ImageStorage.DefaultUrlPrefix | src/main/java/org/acme/service/ProductImageStorageService.java:21-25 | with the defaults the prefix is `http://localhost:9000/plm-files/` |
| ImageStorage.DefaultImageUrl | src/main/java/org/acme/service/ProductImageStorageService.java:21-62 | with the defaults the URL is `http://localhost:9000/plm-files/products/<uuid>/image.bin` |
| ProductService.EnrichedOutcome | src/main/java/org/acme/service/ProductService.java:147-149 | every product handed out carries the URL of its reference; failures pass through unchanged |
| ProductService.CreateOutcome | src/main/java/org/acme/service/ProductService.java:47-63 | success exactly with a non-blank name and an existing line; every failure is InvalidArgument; the stored product has the sent fields, the line, and the image reference the payload carried |
| ProductService.UpdateOutcome | src/main/java/org/acme/service/ProductService.java:66-97 | InvalidArgument for a missing payload or line reference, or an unknown line; NotFound for a missing product; otherwise the fields and line are replaced and the image is kept |
| ProductService.UpdateKeepsNoNameRule | src/main/java/org/acme/service/ProductService.java:47-97 | in the service bodies, a nameless payload is refused by create and accepted by update (the resource's bean validation, which refuses it first, is not modelled) |
| ProductService.CreatedImageUrl | src/main/java/org/acme/service/ProductService.java:57-61 | a created product is handed out with the URL of the reference it was sent with, and with none when it was sent without one |
| ProductService.SaveOutcome | src/main/java/org/acme/service/ProductService.java:100-137 | NotFound for a missing product; InvalidArgument for adding over an image or for empty bytes; otherwise the reference becomes the product's object key |
| ProductService.WithoutObject | src/main/java/org/acme/service/ProductImageStorageService.java:45-50 | a null or blank reference leaves storage alone; otherwise that object and no other is gone |
| ProductService.StoredImage | src/main/java/org/acme/service/ProductService.java:128-137 | after a save the product's key holds the new bytes, the previous object (when it is another key) is gone, every other object is kept unchanged and no other object appears |
| ProductService.OtherImagesSurvive | src/main/java/org/acme/service/ProductService.java:117-126 | removing the image of a product whose reference is empty or its own object key leaves every other product's uploaded image in place |
| ProductService.SaveOwnsImage | src/main/java/org/acme/service/ProductService.java:128-137 | after any upload the product's reference is its own object key |
| ProductService.ForeignReferenceRemovesOtherImage | src/main/java/org/acme/service/ProductService.java:47-63 | a create payload may carry another product's object key as its reference; removing that reference then deletes the other product's image |
| ProductService.SavedImageUrl | src/main/java/org/acme/service/ProductService.java:128-137 | after a save the URL handed out is the prefix followed by the object key |
| ProductService.ProductCatalog.constructor | src/main/java/org/acme/service/ProductService.java:15-24 | an empty catalog and empty storage under the given configuration |
| ProductService.ProductCatalog.Create | src/main/java/org/acme/service/ProductService.java:47-63 | success exactly when `CreateOutcome` succeeds, storing it under the fresh id and handing it out with the URL of the sent reference; otherwise InvalidArgument and no change |
| ProductService.ProductCatalog.Update | src/main/java/org/acme/service/ProductService.java:66-97 | the answer is the enriched `UpdateOutcome`; only that product changes; storage is untouched |
| ProductService.ProductCatalog.SaveImageReference | src/main/java/org/acme/service/ProductService.java:128-137 | the answer is the enriched save; on success the old object goes and the new bytes are stored under the key |
| ProductService.ProductCatalog.AddImage | src/main/java/org/acme/service/ProductService.java:100-107 | the answer is the enriched `SaveOutcome` without replacement; on failure nothing changes |
| ProductService.ProductCatalog.UpdateImage | src/main/java/org/acme/service/ProductService.java:110-114 | the answer is the enriched `SaveOutcome` with replacement; on failure nothing changes |
| ProductService.ProductCatalog.RemoveImage | src/main/java/org/acme/service/ProductService.java:117-126 | NotFound for a missing product; true exactly when it had an image, which is then deleted from storage and cleared |
| ProductService.ProductCatalog.Delete | src/main/java/org/acme/service/ProductService.java:152-161 | deleted exactly when the product existed; its row and its image go with it |
| Scenarios.QuoteLifecycleFlow | src/test/java/org/acme/VendorQuoteResourceTest.java:22-113 | create 201, update 200, review 200, approve 200, edit of the approved quote 400, delete 204, get 404; listed 1 before and 0 after, and 1 with includeDeleted |
| Scenarios.StaleQuoteUpdateFlow | src/main/java/org/acme/service/VendorQuoteService.java:84-93 | stale update 409, current update 200, then review and approve 200, then edit 400 |
| Scenarios.ValidationAndNotFoundFlow | src/test/java/org/acme/VendorQuoteResourceTest.java:157-200 | unknown quote 404; move to DRAFT 400; approval of a quote that expired yesterday 400; then a step the test does not have, taken from the uniqueness check at VendorQuoteService.java:171-180: a second quote with the same pair 400 |
| Scenarios.PrimaryVendorFlow | src/main/java/org/acme/service/ProductVendorSourcingService.java:36-90 | duplicate vendor 400, second primary 400, handing over the primary flag 200 / 200, stale write 409 |
| Scenarios.LineVersionFlow | src/test/java/org/acme/LineResourceTest.java:59-71 | create 201; update 200, moving the version to 1 (lines 59-71); version 999 gives 409 (lines 148-157), a missing line 404 (lines 93-106), no payload 400 |
| Scenarios.ProductImageFlow | src/main/java/org/acme/resource/ProductResource.java:105-155 | create 201, upload 200 with URL `http://localhost:9000/plm-files/` + key, second upload 400, replace 200, remove 204, second remove 404 |

## Left out

- The HTTP resources and mappers are outside the model. Only their status mapping is kept (`HttpStatus`). The quote actor `API_USER`, which the resource hardcodes, becomes the `actor` parameter.
- The audit and deletion actors, timestamps and "today" are parameters. The model has no clock.
- The S3 client is not modelled: `putObject`, `deleteObject` and `ensureBucketExists` are replaced by a ghost map from object keys to bytes. The bucket-creation race and S3 errors are not captured.
- `Paging.page` and `PageResult` run a database query; only the normalisation of the parameters is modelled.
- Persistence, transactions, JPA dirty checking and concurrency are not modelled. `@Version` becomes an explicit `version` counter that every successful write moves on. The conflict it signals is modelled as `Conflict`.
- VendorQuote (VendorQuote.java:23), Line (Line.java:18) and Size (Size.java:12) do not extend `CoreEntity` and, as shown, declare no `version` field. Their services and mappers still read `version` (VendorQuoteService.java:87, LineService.java:55, SizeService.java:47, VendorQuoteMapper.java:68, LineMapper.java:46, SizeMapper.java:28). The model gives these three entities a counter of its own that every successful write moves on, as `@Version` would.
- Audit fields (createdAt / updatedAt / createdBy) and the audit listener are not modelled. Creation order is represented by increasing ids.
- Integers are unbounded, and `BigDecimal` amounts are modelled as integers. Overflow of Java `int` is not modelled.
- Text.ToUpper: case-maps ASCII letters only. `String.toUpperCase` also maps other scripts; currency codes are ASCII.
- ImageStorage.ObjectKeyInjective: UUIDs are modelled as natural numbers, so injectivity is proved below 16^32, which covers every UUID value.
- ImageStorage.DecodeEncoded: Dafny chars are Unicode scalar values, so a Java lone surrogate cannot be expressed. An astral char stands for a surrogate pair, which Java's UTF-8 encoder writes as `%3F%3F`.
- SourcingRepository.ListByProductId: the query has no order clause, so the result is a sub-table, not a sequence.
- The `firstResult()` queries choose the least matching id. The database may return any match, so the lemmas only use "some match".
- `list`, `findById` and `listByLineId` of the product service, and `list` / `findById` of the line, vendor, size and color services, are plain lookups with no rules. They are not modelled.
- The sourcing mapper resolves the vendor before the service runs, so through HTTP an unknown vendor arrives as a null vendor (InvalidArgument). `SourcingService.CreateOutcome` models the service as written, where a given but unknown vendor is NotFound.
- Caching and the field mapping in the color resources are outside the model.
- Entity-level bean validation is not modelled. It runs on `@Valid` bodies and again when Hibernate flushes. It covers Product (`@NotBlank` name, `@NotNull` line, Product.java:24-31), Line (`@NotBlank` line and season codes, `@NotNull` brand, market and channel, Line.java:25-46) and Color (`@NotBlank` name and rgb, Color.java:11-19). The model states what the service bodies do, so for example `ProductService.UpdateOutcome` accepts a product without a name, which the program answers with 400.
- ProductService.OtherImagesSurvive: the lemma needs the removed product to own its image. A reference sent with create can name any object, and `ProductService.ForeignReferenceRemovesOtherImage` shows that removing it then deletes another product's image.
- The `version` of the status payload is carried in `StatusRequest` and not used, as in the service.
- `imageUrl` is not stored: it is computed into `ProductView` whenever a product is handed out, as `enrichWithImageUrl` does.
- The test `allowsMultipleApprovedQuotesAcrossVendorsForSameProduct` is covered by `QuoteService.StatusIgnoresOtherQuotes`, not by a replayed flow.
