# DigiCert CA connector: certificate lifecycle translator

A Dafny model of the part of the DigiCert CA connector that sits between the
platform's canonical certificate records and the DigiCert CertCentral API:

- the **PEM chain splitter** (`parseCertificatePEM`, `parseCertificateData`),
  which turns a downloaded PEM document into a base64 leaf certificate and an
  ordered base64 chain;
- **RequestCertificate**, which builds the order payload from a PKCS#10
  request and sorts the CA's answer into an Issued or Requested certificate,
  an order still processing, or a Failed result;
- **CheckOrder** and **CheckCertificate**, which map the CA's order status
  words and download body onto the canonical status values;
- **RetrieveCertificates**, one page of the certificate import: the cursor
  rule, the completion test, the expiry filter and the per-order download;
- **executeRequest**, the HTTP exchange: method choice, the API-key header,
  and the classification of status codes;
- **GetOptions** and **ValidateProduct**, the product and import options built
  from the CA's organizations and products, and a requested product checked
  against them.

The CA is a function from the request sent to what comes back
(`Rest.CaServer`), so every contract speaks of the exact URL, method, header
and body the connector sends. The library calls the connector makes on data
it receives (`pem.Decode`, `x509.ParseCertificate`,
`x509.ParseCertificateRequest`, `time.Parse`, `json.Unmarshal`) are the
fields of one `Decoders.Decoders` value; the clock is an integer `now`.
Base64 (section 4 of RFC 4648) and `strconv.Itoa` are written out and come
with their decoders and round-trip proofs.

Loops of the source are methods with loop invariants, each proved equal to a
specification function; the properties are proved about those functions.
Modules: `Wrappers`, `Decimal`, `Base64`, `Domain`, `Wire`, `Decoders`,
`Rest`, `PemChain`, `Certificates`, `Import`, `Options`.

Points where the code behaves otherwise than a reader of the connector's
interface might expect; the model does what the code does, except for the
error text of a rejected response (see Findings), where the code as written
is modelled beside the corrected text and the rest of the model uses the
corrected one:

- Only GET and POST are ever sent; there is no PUT and no
  unsupported-method error (internal/app/service/rest.go:19-23).
- An order-only answer is never upgraded to Completed: the branch at
  internal/app/service/certificate.go:173-176 is unreachable, because a
  non-zero certificate id was already routed to the Requested result at
  line 145. `Certificates.RequestCertificate` states the order-only result is
  Processing with an empty certificate id.
- An Issued result does not always carry a non-empty certificate: a chain
  that is present but empty gives an empty certificate
  (`Certificates.IssuedParts`).
- A CA error body is not surfaced verbatim; see Findings.
- In RetrieveCertificates, an unreadable `valid_till` date or a failed
  certificate download is fatal to the whole call, not only a failed listing
  (`Import.OutcomeOf`, `Import.ImportFailsIffFatal`).
- The new cursor is the page offset reported by the CA plus the number of
  orders returned; the caller's start cursor plays no part in it
  (`Import.Retrieved`).

## Model

| member | source | states |
|---|---|---|
| Rest.NewRequest | internal/app/service/rest.go:15-23 | POST exactly when there is a body, GET exactly when there is none; the URL is the server URL followed by the path; the headers are the JSON content type and X-DC-DEVKEY carrying the API key; the body is sent unchanged |
| Rest.ExecuteRequest | internal/app/service/rest.go:15-33 | success exactly when the CA answers with 200, 201 or 202, with that status and body; a transport error is returned unchanged; any other status fails with the response body as the message (the corrected behaviour, see Findings) |
| Rest.GoErrorfNoArgs | internal/app/service/rest.go:30 | fmt.Errorf of a format with no operands, as written: its output contains a '%' exactly when the format does |
| Rest.ErrorTextAsWritten | internal/app/service/rest.go:29-31 | the error text of a rejected response as the code builds it: empty for a nil body, and containing a '%' exactly when the body does |
| Rest.GoErrorfNoPercent | internal/app/service/rest.go:30 | a body without '%' passes through fmt.Errorf unchanged |
| Rest.GoErrorfRaisesBalance | internal/app/service/rest.go:30 | formatting a body that contains '%' with no arguments always changes the text: the count of '!' minus the count of '%' rises by at least one |
| Rest.ErrorTextVerbatimIff | internal/app/service/rest.go:29-31 | the error text of a rejected response equals its body if and only if the body has no '%' |
| Rest.TrailingPercentRewritten | internal/app/service/rest.go:30 | a body whose only '%' is its last character gets "!(NOVERB)" appended |
| Rest.PercentBodyRewritten | internal/app/service/rest.go:30 | the body "100%" becomes the error text "100%!(NOVERB)" |
| Decimal.Itoa | internal/app/service/certificate.go:147 | strconv.Itoa gives the canonical decimal text: "0" for zero; otherwise no leading zero, all digits for a positive number, and for a negative one a '-' followed by digits that do not start with '0' |
| Decimal.AtoiItoa | internal/app/service/certificate.go:295 | the decimal text of any integer parses back to that integer |
| Decimal.ItoaInjective | internal/app/service/certificate.go:147 | two integers have the same decimal text exactly when they are equal |
| Base64.Encode | internal/app/service/certificate.go:308 | the padded encoding has length 4 * ceil(n/3), and '=' appears only in its last two positions |
| Base64.DecodeEncode | internal/app/service/certificate.go:308-313 | decoding the standard padded encoding of any bytes gives back those bytes |
| Base64.EncodeKnownAnswers | internal/app/service/certificate.go:307 | the encoder gives the test vectors of section 10 of RFC 4648: "Zg==", "Zm8=", "Zm9v" and "Zm9vYmFy" |
| Base64.EncodeInjective | internal/app/service/certificate.go:308-313 | two byte strings have the same encoding exactly when they are equal |
| PemChain.FirstParseError | internal/app/service/certificate.go:333-337 | no error exactly when every PEM block parses as a certificate; otherwise the error of the first block that does not |
| PemChain.Certificates | internal/app/service/certificate.go:319-347 | success exactly when the document has a block and every block parses, giving the DER of each block in order; no block gives "failed to decode any certificate PEM block"; a parse failure gives the first failing block's error after "error parsing TLS certificate: " |
| PemChain.ParseCertificatePEM | internal/app/service/certificate.go:319-347 | the loop consuming the PEM buffer returns exactly PemChain.Certificates of the document |
| PemChain.EncodeAll | internal/app/service/certificate.go:310-314 | one text per DER, in order: entry i is the standard encoding of DER i and decodes back to it |
| PemChain.SplitChain | internal/app/service/certificate.go:300-317 | success exactly when the certificates parse, with the same error otherwise; the leaf is the encoding of the first certificate and the chain the encodings of the rest, in order |
| PemChain.SplitChainRoundTrip | internal/app/service/certificate.go:300-317 | for a document whose blocks all parse, the leaf decodes to the first block's DER, the chain has one entry fewer than the document and entry i decodes to block i+1's DER |
| PemChain.ParseCertificateData | internal/app/service/certificate.go:300-317 | returns PemChain.SplitChain's leaf and chain on success; on failure its error, an empty certificate and an empty chain |
| Certificates.RemoveLineBreaks | internal/app/service/certificate.go:106-107 | the request text afterwards contains no '\n' and is no longer than before |
| Certificates.RemoveLineBreaksKeptChars | internal/app/service/certificate.go:106-107 | removing every match of \r?\n keeps exactly the characters that are neither a '\n' nor a '\r' directly before a '\n', in their order |
| Certificates.RemoveLineBreaksIdentity | internal/app/service/certificate.go:106-107 | a text without '\n' is left unchanged, so a '\r' not followed by '\n' is kept |
| Certificates.OrderPayload | internal/app/service/certificate.go:97-121 | the common name is the subject CN, or the first DNS name when the CN is empty; the DNS list is the CSR's, or [common name] when it has none; the CSR text has no '\n' and is the request text without its line breaks (Certificates.KeptFrom); server platform -1, the product's hash algorithm and organization id, an empty provisioning method |
| Certificates.OrderAnswerOf | internal/app/service/certificate.go:92-143 | the CSR is rejected exactly when it does not parse, with its error; otherwise the order body is POSTed to /order/certificate/<name id>, the call fails exactly when the CA does not answer 200, 201 or 202 (with the transport cause or the response body), and the answer is the decoded body or its decode error |
| Certificates.IssuedParts | internal/app/service/certificate.go:150-162 | for an empty chain, an empty certificate and chain; otherwise the certificate is the encoding of the first entry's DER and decodes back to it, and chain entry i is the encoding of entry i+1's DER and decodes back to it |
| Certificates.EncodeChainEntries | internal/app/service/certificate.go:150-161 | the loop over the chain entries with its counter returns exactly Certificates.IssuedParts |
| Certificates.RequestCertificate | internal/app/service/certificate.go:90-179 | an unparsable CSR is the only error; a transport or status failure gives a Failed result with "failed to request certificate from DigiCert CA server: " and the cause, an undecodable answer one with "failed request certificate from DigiCert CA server: "; a chain gives Issued with Certificates.IssuedParts, else a non-zero certificate id gives Requested, else an order Processing with an empty certificate id; exactly one of the two results is set |
| Certificates.OrderStatusOf | internal/app/service/certificate.go:195-204 | "issued" is Completed; "pending", "needs_approval" and "processing" are Processing; every other word is Failed; never Pending |
| Certificates.CheckOrder | internal/app/service/certificate.go:182-210 | lookup errors pass through; the id is the caller's; the status is Certificates.OrderStatusOf; a certificate id is set exactly when the order is issued or its certificate id is positive, and is then that id's decimal text |
| Certificates.CheckCertificate | internal/app/service/certificate.go:213-236 | request errors pass through; no body gives Requested with no certificate data; a body gives Issued with PemChain.SplitChain's leaf and chain, or that split's error |
| Import.ProductFilter | internal/app/service/certificate.go:241-244 | empty exactly when the import option names no product; otherwise exactly "filters[product_name_id]=", the product name id and a closing '&' (prefix, last character and length fixed) |
| Import.ListingUri | internal/app/service/certificate.go:241-245 | the query of the template at certificate.go:20: "/order/certificate?", the product filter, "filters[status]=issued&limit=", the batch size's decimal text and "&offset=" as its prefix, the start cursor and "&sort=order_id" as its suffix, and nothing else (its length is the sum of theirs) |
| Import.ListingUriDeterminesPaging | internal/app/service/certificate.go:245 | for one import option, two listing queries are equal exactly when they carry the same batch size and the same start cursor |
| Import.OutcomeOf | internal/app/service/certificate.go:264-291 | fatal exactly when the date does not read, or the certificate is not passed over as expired and its download fails, with that error; imported exactly when the date reads, the certificate is not passed over as expired, the download succeeds with a body and the body splits, under the order's certificate id with the split's leaf and chain; passed over whenever it is expired and expired ones are not included |
| Import.ImportedCertificateRoundTrip | internal/app/service/certificate.go:276-288 | an imported certificate came from a successful download whose PEM document is non-empty; its certificate decodes to the first block's DER and its chain entry i to block i+1's |
| Import.ClockIrrelevantWhenExpiredIncluded | internal/app/service/certificate.go:270-272 | with expired certificates included, an order's outcome does not depend on the clock |
| Import.Collected | internal/app/service/certificate.go:264-291 | the order loop over the orders' outcomes: a successful run yields at most one certificate per outcome |
| Import.CollectedAppend | internal/app/service/certificate.go:264-291 | the loop over two stretches of outcomes fails with the first stretch's error, else the second's, else yields the first stretch's certificates followed by the second's |
| Import.CollectedFailsIffFatal | internal/app/service/certificate.go:264-279 | the loop fails exactly when some outcome is fatal |
| Import.CollectedErrorIsFirstFatal | internal/app/service/certificate.go:264-279 | a failed loop fails with the error of its first fatal outcome |
| Import.CollectedComeFromOutcomes | internal/app/service/certificate.go:264-291 | every certificate a successful loop yields is an imported outcome |
| Import.ImportedOutcomesCollected | internal/app/service/certificate.go:264-291 | every imported outcome's certificate is among those a successful loop yields |
| Import.ImportedFrom | internal/app/service/certificate.go:264-291 | a successful run imports at most as many certificates as there are orders |
| Import.ImportedFromStep | internal/app/service/certificate.go:264-291 | the run over one more order fails with the earlier error, else with that order's fatal error, else passes it over or appends its certificate |
| Import.ImportedFromAppend | internal/app/service/certificate.go:264-291 | a run over two stretches of orders fails with the first stretch's error, else with the second's, else imports the first stretch's certificates followed by the second's: order is kept |
| Import.ImportFailsIffFatal | internal/app/service/certificate.go:264-279 | the run fails exactly when some order is fatal |
| Import.ImportErrorIsFirstFatal | internal/app/service/certificate.go:264-279 | a failed run fails with the error of the first fatal order |
| Import.ImportedComeFromOrders | internal/app/service/certificate.go:264-291 | every imported certificate is the imported outcome of one of the orders |
| Import.ImportableAreImported | internal/app/service/certificate.go:264-291 | in a successful run, every order whose outcome is an import contributes its certificate |
| Import.FailedPrefixFails | internal/app/service/certificate.go:264-279 | once a prefix of the orders fails, the whole run fails with that error |
| Import.Retrieved | internal/app/service/certificate.go:239-298 | a failed listing is the error; otherwise the run fails exactly when Import.ImportedFrom does; on success the certificates are Import.ImportedFrom's, the status is Completed exactly when page offset plus order count equals the page total, and the cursor is the decimal text of that sum (which parses back to it) |
| Import.ProcessOrder | internal/app/service/certificate.go:265-290 | one pass of the order loop ends exactly as Import.OutcomeOf says |
| Import.ImportOrders | internal/app/service/certificate.go:264-291 | the order loop, with its early return on a fatal order and its skips, returns exactly Import.ImportedFrom |
| Import.RetrieveCertificates | internal/app/service/certificate.go:239-298 | the order loop with its early returns and skips returns exactly Import.Retrieved |
| Options.ActiveOrganizations | internal/app/service/options.go:72-77 | no more ids than organizations |
| Options.ActiveOrganizationsAppend | internal/app/service/options.go:72-77 | the active ids of a listing split in two are those of the first part followed by those of the second: listing order is kept |
| Options.ActiveOrganizationsMembership | internal/app/service/options.go:72-77 | an id is listed exactly when some active organization has it |
| Options.ProductTypeOf | internal/app/service/options.go:93-96 | code signing exactly for "code_signing_certificate" |
| Options.HashIDs | internal/app/service/options.go:97-100 | one id per allowed hash type, in order |
| Options.ProductOptionOf | internal/app/service/options.go:101-110 | the types are the single SSL or the single code signing type, code signing exactly for a code signing product; the name, default hash algorithm and product name id are the product's; the hashes are the ids of its allowed hash types in order; the organizations are the given active list |
| Options.ImportOptionOf | internal/app/service/options.go:112-118 | the name and product name id are the product's; the description is its certificate type followed by " certificates will be available for import" |
| Options.Offered | internal/app/service/options.go:91-92 | only SSL and code signing products of the listing are kept |
| Options.OfferedAppend | internal/app/service/options.go:91-92 | the offered products of a listing split in two are those of the first part followed by those of the second: listing order is kept |
| Options.OfferedComplete | internal/app/service/options.go:91-92 | every SSL or code signing product of the listing is kept |
| Options.ProductOptions | internal/app/service/options.go:101-110 | one product option per offered product, in order |
| Options.ImportOptions | internal/app/service/options.go:112-118 | one import option per offered product, in order |
| Options.OfferedOptions | internal/app/service/options.go:58-123 | either call failing, or its answer not decoding, is the error; otherwise the product and import options of the offered products, carrying the active organizations |
| Options.OptionsCorrespond | internal/app/service/options.go:101-118 | product and import options have equal length and agree index by index on name and product name id; each carries the full active organization list |
| Options.OptionFromOfferedProduct | internal/app/service/options.go:91-110 | each product option is that of a listed SSL or code signing product |
| Options.OfferedProductsHaveOptions | internal/app/service/options.go:91-110 | each listed SSL or code signing product has its product option |
| Options.GetOptions | internal/app/service/options.go:58-123 | returns Options.OfferedOptions' options, or its error and no options |
| Options.CollectActiveOrganizations | internal/app/service/options.go:72-77 | the organization loop returns exactly Options.ActiveOrganizations |
| Options.CollectHashes | internal/app/service/options.go:97-100 | the hash loop returns exactly Options.HashIDs |
| Options.CollectOptions | internal/app/service/options.go:91-120 | the product loop returns exactly Options.ProductOptions and Options.ImportOptions of the offered products |
| Options.FirstNamed | internal/app/service/options.go:136-137 | none exactly when no option has the name; otherwise the first option with it |
| Options.ProductErrors | internal/app/service/options.go:136-173 | with no option of the name, exactly the one name error; otherwise, against the first option of the name, a hashAlgorithm error exactly when the hash is not listed and an organizationId error (decimal id) exactly when the organization is not listed, one of each at most, the hashAlgorithm error first |
| Options.ProductErrorsEmptyIff | internal/app/service/options.go:136-173 | no errors exactly when an option has the name and the first such option lists the hash algorithm and the organization |
| Options.OrganizationErrorIffInactive | internal/app/service/options.go:147-163 | with an option of the name, the organizationId error appears exactly when no active organization has the product's organization id |
| Options.Contains | internal/app/service/options.go:140-151 | the search stopping at the first match finds exactly the members |
| Options.CheckProduct | internal/app/service/options.go:136-173 | the option loop, stopping at the first option of the name, returns exactly Options.ProductErrors |
| Options.ValidateProduct | internal/app/service/options.go:126-176 | a GetOptions error is propagated with no errors listed; otherwise the errors are Options.ProductErrors of the product options |

## Left out

- The wall clock: `customExpirationDate` (internal/app/service/certificate.go:122) is not sent in the model's order payload, so `validitySeconds` plays no part; `time.Now` in RetrieveCertificates is the parameter `now`.
- `productOptionName` of RequestCertificate is unused by the code and is not a parameter.
- Logging (zap calls), the web handlers, the JWE middleware, process wiring, TestConnection (internal/app/service/connect.go) and revocation are not part of this model.
- resty's client construction (`NewRestClient`) is not modelled; the request is the value the CA function receives.
- `pem.Decode`, `x509.ParseCertificate`, `x509.ParseCertificateRequest`, `time.Parse` and `json.Unmarshal` are inputs, not modelled; a parsed certificate's raw DER is taken to be the bytes of its PEM block.
- Rest.GoErrorfNoArgs: models flags, width, precision, `%%` and the missing-argument and no-verb markers of fmt; the argument-index form `%[n]` and `*` widths are not modelled, nor is fmt's limit on a width or precision above 10^6, which it reports as "%!(NOVERB)" and then drops the rest of the format; the model reads a digit run of any length, so Rest.GoErrorfRaisesBalance is stated for the modelled fmt.
- The code's panics on a nil `productDetails` pointer in RequestCertificate (internal/app/service/certificate.go:125) are not modelled: the model takes product details as a value.
- The code's panics on a nil PEM block for the CSR, a chain entry without a PEM block, an issued order without a certificate, and a listed order without a certificate are preconditions of the members that read them.
- resty's `String()` trims the white space around the body before it reaches parseCertificateData (internal/app/service/certificate.go:226, 280); the model hands the untrimmed body to `pem`, which is an input, so the trim is not modelled.
- Go's `nil` versus empty slice: an absent certificate chain is `None`; the other sequences are modelled as values, nil and empty alike.
- Certificates.RequestCertificate: when the CA rejects the order, the Failed result's message carries the corrected, verbatim response body rather than the fmt-rewritten text of internal/app/service/rest.go:30 (they differ only for a body containing '%'; see Findings).
- Certificates.CheckOrder: a rejected lookup's error is the verbatim response body, not the fmt-rewritten text (differs only for a body containing '%').
- Certificates.CheckCertificate: a rejected download's error is the verbatim response body, not the fmt-rewritten text (differs only for a body containing '%').
- Import.Retrieved: a rejected listing or download gives the verbatim response body as the error, not the fmt-rewritten text (differs only for a body containing '%'); so does Import.RetrieveCertificates.
- Options.OfferedOptions: a rejected organizations or products call gives the verbatim response body as the error, not the fmt-rewritten text (differs only for a body containing '%'); so do Options.GetOptions and Options.ValidateProduct.
- Integers are unbounded: Go's `int` overflow in `offset + len(orders)` is not modelled.

## Findings

| source | as written | input that shows it | evidently intended | confidence | as-written member | corrected member |
|---|---|---|---|---|---|---|
| internal/app/service/rest.go:30 | the body of a rejected response is passed to `fmt.Errorf` as the format string, so every '%' in it is read as a verb | a 400 response with body "100%" gives the error "100%!(NOVERB)" | the error message is the body verbatim | not executed | Rest.ErrorTextVerbatimIff | Rest.ExecuteRequest |
