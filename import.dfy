/** RetrieveCertificates: one page of issued orders, and the certificates of
  * those orders that can be imported. */
module Import {
  import opened Wrappers
  import opened Decimal
  import opened Base64
  import opened Domain
  import opened Wire
  import opened Decoders
  import opened Rest
  import opened PemChain
  import opened Certificates

  /** The product filter of the order listing; none when the import option names no product. */
  function ProductFilter(nameID: string): (filter: string)
    ensures filter == "" <==> nameID == ""
    ensures nameID != "" ==> "filters[product_name_id]=" + nameID <= filter && filter[|filter| - 1] == '&'
    ensures nameID != "" ==> |filter| == |"filters[product_name_id]="| + |nameID| + 1
  {
    if nameID == "" then "" else "filters[product_name_id]=" + nameID + "&"
  }

  /** The fixed part of the listing query before the limit value. */
  function ListingPath(importOption: ImportOption): string
  {
    "/order/certificate?" + ProductFilter(importOption.settings.nameID) + "filters[status]=issued&limit="
  }

  /** The order listing query: issued orders, batchSize of them from startCursor on, by order id. */
  function ListingUri(importOption: ImportOption, startCursor: string, batchSize: int): (uri: string)
    ensures ListingPath(importOption) + Itoa(batchSize) + "&offset=" <= uri
    ensures |uri| == |ListingPath(importOption)| + |Itoa(batchSize)| + |"&offset="| + |startCursor| + |"&sort=order_id"|
    ensures uri[|uri| - |startCursor + "&sort=order_id"|..] == startCursor + "&sort=order_id"
  {
    var head := ListingPath(importOption) + Itoa(batchSize) + "&offset=";
    var tail := startCursor + "&sort=order_id";
    assert head <= head + tail;
    assert (head + tail)[|head + tail| - |tail|..] == tail;
    head + tail
  }

  /** The listing query as the code concatenates it. */
  lemma ListingUriSpelledOut(importOption: ImportOption, filters: string, startCursor: string, batchSize: int)
    requires filters == ProductFilter(importOption.settings.nameID)
    ensures "/order/certificate?" + filters + "filters[status]=issued&limit=" + Itoa(batchSize) + "&offset=" + startCursor + "&sort=order_id"
            == ListingUri(importOption, startCursor, batchSize)
  {
  }

  /** Two listing queries for the same import option are equal exactly when
    * they ask for the same number of orders from the same cursor. */
  lemma ListingUriDeterminesPaging(importOption: ImportOption, cursor1: string, size1: int, cursor2: string, size2: int)
    ensures ListingUri(importOption, cursor1, size1) == ListingUri(importOption, cursor2, size2) <==> cursor1 == cursor2 && size1 == size2
  {
    if ListingUri(importOption, cursor1, size1) == ListingUri(importOption, cursor2, size2) {
      var path := ListingPath(importOption);
      var x1, x2 := Itoa(size1), Itoa(size2);
      var rest1, rest2 := "&offset=" + cursor1 + "&sort=order_id", "&offset=" + cursor2 + "&sort=order_id";
      Regroup(path, x1, "&offset=", cursor1, "&sort=order_id");
      Regroup(path, x2, "&offset=", cursor2, "&sort=order_id");
      CancelPrefix(path, x1 + rest1, x2 + rest2);
      NoAmpersandInItoa(size1);
      NoAmpersandInItoa(size2);
      SplitAtAmpersand(x1, rest1, x2, rest2);
      ItoaInjective(size1, size2);
      CancelPrefix("&offset=", cursor1 + "&sort=order_id", cursor2 + "&sort=order_id");
      CancelSuffix(cursor1, cursor2, "&sort=order_id");
    }
  }

  lemma Regroup(p: string, x: string, a: string, c: string, q: string)
    ensures p + x + a + (c + q) == p + (x + (a + c + q))
  {
  }

  lemma CancelPrefix(p: string, a: string, b: string)
    requires p + a == p + b
    ensures a == b
  {
    assert a == (p + a)[|p|..];
    assert b == (p + b)[|p|..];
  }

  lemma CancelSuffix(a: string, b: string, q: string)
    requires a + q == b + q
    ensures a == b
  {
    assert a == (a + q)[..|a|];
    assert b == (b + q)[..|b|];
  }

  /** A text free of '&' followed by one that opens with '&' splits in one way only. */
  lemma SplitAtAmpersand(x1: string, r1: string, x2: string, r2: string)
    requires x1 + r1 == x2 + r2
    requires forall i :: 0 <= i < |x1| ==> x1[i] != '&'
    requires forall i :: 0 <= i < |x2| ==> x2[i] != '&'
    requires r1 != [] && r1[0] == '&' && r2 != [] && r2[0] == '&'
    ensures x1 == x2 && r1 == r2
  {
    assert |x1| == |x2| by {
      FirstAmpersandAt(x1, r1);
      FirstAmpersandAt(x2, r2);
    }
    assert x1 == (x1 + r1)[..|x1|];
    assert x2 == (x2 + r2)[..|x2|];
    assert r1 == (x1 + r1)[|x1|..];
    assert r2 == (x2 + r2)[|x2|..];
  }

  /** In x + r, with no '&' in x and r opening with one, the first '&' stands at |x|. */
  lemma FirstAmpersandAt(x: string, r: string)
    requires forall i :: 0 <= i < |x| ==> x[i] != '&'
    requires r != [] && r[0] == '&'
    ensures (x + r)[|x|] == '&'
    ensures forall k :: 0 <= k < |x| ==> (x + r)[k] != '&'
  {
    assert (x + r)[|x|] == r[0];
    assert forall k :: 0 <= k < |x| ==> (x + r)[k] == x[k];
  }

  lemma NoAmpersandInItoa(n: int)
    ensures forall i :: 0 <= i < |Itoa(n)| ==> Itoa(n)[i] != '&'
  {
  }

  /** GET of the order listing, decoded. */
  function Listing(connection: Connection, importOption: ImportOption, startCursor: string, batchSize: int,
                   ca: CaServer, dec: Decoders): Result<OrderSearchResponse, string>
  {
    match ExecuteRequest(connection, None, ListingUri(importOption, startCursor, batchSize), ca)
    case Failure(e) => Failure(e)
    case Success(reply) => dec.orderSearch(BodyText(reply.body))
  }

  /** The code reads the certificate of every listed order. */
  predicate AllHaveCertificates(orders: seq<DigicertOrderDetails>)
  {
    forall i :: 0 <= i < |orders| ==> orders[i].certificate.Some?
  }

  predicate ListedOrdersHaveCertificates(listing: Result<OrderSearchResponse, string>)
  {
    listing.Success? ==> AllHaveCertificates(listing.value.orders)
  }

  /** What one import run depends on besides the orders themselves; now is the clock reading. */
  datatype ImportRun = ImportRun(connection: Connection, configuration: ImportConfiguration, now: int, ca: CaServer, dec: Decoders)

  /** How one listed order ends: the run stops with an error, the order is passed over, or it is imported. */
  datatype OrderOutcome = Fatal(error: string) | Skipped | Imported(certificate: ImportCertificate)

  /** The download of an order's certificate chain. */
  function Download(order: DigicertOrderDetails, run: ImportRun): Result<Reply, string>
    requires order.certificate.Some?
  {
    ExecuteRequest(run.connection, None, DownloadCertificateUri(Itoa(order.certificate.value.id)), run.ca)
  }

  /** Whether the order's certificate is passed over as expired: its expiry
    * date reads, lies before the clock, and expired ones are not included. */
  predicate ExpiredAndExcluded(order: DigicertOrderDetails, run: ImportRun)
    requires order.certificate.Some?
  {
    var date := run.dec.date(order.certificate.value.validTill);
    date.Success? && date.value < run.now && !run.configuration.includeExpiredCertificates
  }

  /** An order's outcome: an unreadable expiry date or a failed download stops
    * the run; an expired certificate is passed over unless expired ones are
    * included; an empty download or one that does not split is passed over;
    * anything else is imported under the order's certificate id. */
  function OutcomeOf(order: DigicertOrderDetails, run: ImportRun): (o: OrderOutcome)
    requires order.certificate.Some?
    ensures var date := run.dec.date(order.certificate.value.validTill);
      o.Fatal? <==> date.Failure? || (!ExpiredAndExcluded(order, run) && Download(order, run).Failure?)
    ensures o.Fatal? ==>
      o.error == (var date := run.dec.date(order.certificate.value.validTill);
                  if date.Failure? then date.error else Download(order, run).error)
    ensures var date := run.dec.date(order.certificate.value.validTill);
      var reply := Download(order, run);
      o.Imported? <==>
        && date.Success? && !ExpiredAndExcluded(order, run)
        && reply.Success? && reply.value.body.Some?
        && SplitChain(run.dec.pem(reply.value.body.value), run.dec.x509).Success?
    ensures o.Imported? ==>
      var split := SplitChain(run.dec.pem(Download(order, run).value.body.value), run.dec.x509).value;
      o.certificate == ImportCertificate(Itoa(order.certificate.value.id), split.0, split.1)
    ensures ExpiredAndExcluded(order, run) ==> o == Skipped
  {
    var cert := order.certificate.value;
    match run.dec.date(cert.validTill)
    case Failure(e) => Fatal(e)
    case Success(validTill) =>
      if validTill < run.now && !run.configuration.includeExpiredCertificates then Skipped
      else
        match ExecuteRequest(run.connection, None, DownloadCertificateUri(Itoa(cert.id)), run.ca)
        case Failure(e) => Fatal(e)
        case Success(reply) =>
          if reply.body.None? then Skipped
          else
            match SplitChain(run.dec.pem(reply.body.value), run.dec.x509)
            case Failure(_) => Skipped
            case Success((leaf, chain)) => Imported(ImportCertificate(Itoa(cert.id), leaf, chain))
  }

  /** An imported certificate is the base64 of the downloaded leaf, and its
    * chain that of each later certificate of the download, in order. */
  lemma ImportedCertificateRoundTrip(order: DigicertOrderDetails, run: ImportRun)
    requires order.certificate.Some? && OutcomeOf(order, run).Imported?
    ensures var reply := ExecuteRequest(run.connection, None, DownloadCertificateUri(Itoa(order.certificate.value.id)), run.ca);
      && reply.Success? && reply.value.body.Some?
      && var doc := run.dec.pem(reply.value.body.value);
      var c := OutcomeOf(order, run).certificate;
      && doc != []
      && Decode(c.certificate) == Some(doc[0].bytes)
      && |c.chain| == |doc| - 1
      && forall i :: 0 <= i < |c.chain| ==> Decode(c.chain[i]) == Some(doc[i + 1].bytes)
  {
    var reply := ExecuteRequest(run.connection, None, DownloadCertificateUri(Itoa(order.certificate.value.id)), run.ca);
    SplitChainRoundTrip(run.dec.pem(reply.value.body.value), run.dec.x509);
  }

  /** With expired certificates included, the clock plays no part in an order's outcome. */
  lemma ClockIrrelevantWhenExpiredIncluded(order: DigicertOrderDetails, run: ImportRun, later: int)
    requires order.certificate.Some? && run.configuration.includeExpiredCertificates
    ensures OutcomeOf(order, run) == OutcomeOf(order, run.(now := later))
  {
  }

  /** The certificates of a run whose orders end in these outcomes, in
    * order; the first fatal outcome's error otherwise. */
  function Collected(outcomes: seq<OrderOutcome>): (r: Result<seq<ImportCertificate>, string>)
    ensures r.Success? ==> |r.value| <= |outcomes|
  {
    if outcomes == [] then Success([])
    else
      match Collected(outcomes[..|outcomes| - 1])
      case Failure(e) => Failure(e)
      case Success(certificates) =>
        match outcomes[|outcomes| - 1]
        case Fatal(e) => Failure(e)
        case Skipped => Success(certificates)
        case Imported(c) => Success(certificates + [c])
  }

  /** The outcome of each order, in order. */
  function Outcomes(orders: seq<DigicertOrderDetails>, run: ImportRun): (outcomes: seq<OrderOutcome>)
    requires AllHaveCertificates(orders)
    ensures |outcomes| == |orders|
    ensures forall i :: 0 <= i < |orders| ==> outcomes[i] == OutcomeOf(orders[i], run)
  {
    seq(|orders|, i requires 0 <= i < |orders| => OutcomeOf(orders[i], run))
  }

  /** The certificates of the orders, in order; the first fatal order's error otherwise. */
  function ImportedFrom(orders: seq<DigicertOrderDetails>, run: ImportRun): (r: Result<seq<ImportCertificate>, string>)
    requires AllHaveCertificates(orders)
    ensures r.Success? ==> |r.value| <= |orders|
  {
    Collected(Outcomes(orders, run))
  }

  lemma OutcomesAppend(a: seq<DigicertOrderDetails>, b: seq<DigicertOrderDetails>, run: ImportRun)
    requires AllHaveCertificates(a) && AllHaveCertificates(b)
    ensures AllHaveCertificates(a + b)
    ensures Outcomes(a + b, run) == Outcomes(a, run) + Outcomes(b, run)
  {
    assert forall i :: 0 <= i < |a + b| ==> (a + b)[i] == if i < |a| then a[i] else b[i - |a|];
  }

  lemma OutcomesPrefix(orders: seq<DigicertOrderDetails>, k: nat, run: ImportRun)
    requires AllHaveCertificates(orders) && k <= |orders|
    ensures AllHaveCertificates(orders[..k])
    ensures Outcomes(orders[..k], run) == Outcomes(orders, run)[..k]
  {
  }

  /** The run over one more order: the step of the order loop. */
  lemma ImportedFromStep(orders: seq<DigicertOrderDetails>, k: nat, run: ImportRun)
    requires AllHaveCertificates(orders) && k < |orders|
    ensures AllHaveCertificates(orders[..k]) && AllHaveCertificates(orders[..k + 1])
    ensures ImportedFrom(orders[..k + 1], run) ==
      match ImportedFrom(orders[..k], run)
      case Failure(e) => Failure(e)
      case Success(certificates) =>
        match OutcomeOf(orders[k], run)
        case Fatal(e) => Failure(e)
        case Skipped => Success(certificates)
        case Imported(c) => Success(certificates + [c])
  {
    OutcomesPrefix(orders, k, run);
    OutcomesPrefix(orders, k + 1, run);
    assert Outcomes(orders[..k + 1], run)[..k] == Outcomes(orders[..k], run);
  }

  lemma {:induction false} CollectedAppend(a: seq<OrderOutcome>, b: seq<OrderOutcome>)
    ensures Collected(a + b) ==
      match Collected(a)
      case Failure(e) => Failure(e)
      case Success(x) =>
        match Collected(b)
        case Failure(e) => Failure(e)
        case Success(y) => Success(x + y)
    decreases |b|
  {
    if b == [] {
      assert a + b == a;
      if Collected(a).Success? {
        assert Collected(a).value + [] == Collected(a).value;
      }
    } else {
      var n := |b| - 1;
      assert (a + b)[..|a + b| - 1] == a + b[..n];
      assert (a + b)[|a + b| - 1] == b[n];
      CollectedAppend(a, b[..n]);
      match Collected(a)
      case Failure(_) =>
      case Success(x) =>
        match Collected(b[..n])
        case Failure(_) =>
        case Success(y) =>
          match b[n]
          case Fatal(_) =>
          case Skipped =>
          case Imported(c) =>
            assert x + y + [c] == x + (y + [c]);
    }
  }

  lemma {:induction false} CollectedFailsIffFatal(outcomes: seq<OrderOutcome>)
    ensures Collected(outcomes).Failure? <==> exists i :: 0 <= i < |outcomes| && outcomes[i].Fatal?
  {
    if outcomes != [] {
      var n := |outcomes| - 1;
      CollectedFailsIffFatal(outcomes[..n]);
      assert forall i :: 0 <= i < n ==> outcomes[..n][i] == outcomes[i];
    }
  }

  lemma {:induction false} CollectedErrorIsFirstFatal(outcomes: seq<OrderOutcome>)
    requires Collected(outcomes).Failure?
    ensures exists i :: 0 <= i < |outcomes| && outcomes[i] == Fatal(Collected(outcomes).error)
                        && forall j :: 0 <= j < i ==> !outcomes[j].Fatal?
  {
    var n := |outcomes| - 1;
    var prefix := outcomes[..n];
    assert forall i :: 0 <= i < n ==> prefix[i] == outcomes[i];
    match Collected(prefix)
    case Failure(e) =>
      CollectedErrorIsFirstFatal(prefix);
      var i :| 0 <= i < n && prefix[i] == Fatal(e) && forall j :: 0 <= j < i ==> !prefix[j].Fatal?;
      assert outcomes[i] == Fatal(Collected(outcomes).error);
    case Success(_) =>
      CollectedFailsIffFatal(prefix);
  }

  lemma {:induction false} CollectedComeFromOutcomes(outcomes: seq<OrderOutcome>)
    requires Collected(outcomes).Success?
    ensures forall c :: c in Collected(outcomes).value ==> Imported(c) in outcomes
  {
    if outcomes != [] {
      var n := |outcomes| - 1;
      CollectedComeFromOutcomes(outcomes[..n]);
      assert outcomes == outcomes[..n] + [outcomes[n]];
    }
  }

  lemma {:induction false} ImportedOutcomesCollected(outcomes: seq<OrderOutcome>)
    requires Collected(outcomes).Success?
    ensures forall i :: 0 <= i < |outcomes| && outcomes[i].Imported? ==> outcomes[i].certificate in Collected(outcomes).value
  {
    if outcomes != [] {
      var n := |outcomes| - 1;
      ImportedOutcomesCollected(outcomes[..n]);
      assert forall i :: 0 <= i < n ==> outcomes[..n][i] == outcomes[i];
    }
  }

  /** A run over two stretches of orders is the run over the first, then the
    * run over the second: certificates stay in order and the first fatal
    * order ends it. */
  lemma ImportedFromAppend(a: seq<DigicertOrderDetails>, b: seq<DigicertOrderDetails>, run: ImportRun)
    requires AllHaveCertificates(a) && AllHaveCertificates(b)
    ensures AllHaveCertificates(a + b)
    ensures ImportedFrom(a + b, run) ==
      match ImportedFrom(a, run)
      case Failure(e) => Failure(e)
      case Success(x) =>
        match ImportedFrom(b, run)
        case Failure(e) => Failure(e)
        case Success(y) => Success(x + y)
  {
    OutcomesAppend(a, b, run);
    CollectedAppend(Outcomes(a, run), Outcomes(b, run));
  }

  /** The run fails exactly when one of its orders is fatal. */
  lemma ImportFailsIffFatal(orders: seq<DigicertOrderDetails>, run: ImportRun)
    requires AllHaveCertificates(orders)
    ensures ImportedFrom(orders, run).Failure? <==> exists i :: 0 <= i < |orders| && OutcomeOf(orders[i], run).Fatal?
  {
    CollectedFailsIffFatal(Outcomes(orders, run));
  }

  /** A failed run fails with the error of its first fatal order. */
  lemma ImportErrorIsFirstFatal(orders: seq<DigicertOrderDetails>, run: ImportRun)
    requires AllHaveCertificates(orders) && ImportedFrom(orders, run).Failure?
    ensures exists i :: 0 <= i < |orders| && OutcomeOf(orders[i], run) == Fatal(ImportedFrom(orders, run).error)
                        && forall j :: 0 <= j < i ==> !OutcomeOf(orders[j], run).Fatal?
  {
    var outcomes := Outcomes(orders, run);
    CollectedErrorIsFirstFatal(outcomes);
    var i :| 0 <= i < |outcomes| && outcomes[i] == Fatal(Collected(outcomes).error)
             && forall j :: 0 <= j < i ==> !outcomes[j].Fatal?;
    assert OutcomeOf(orders[i], run) == Fatal(ImportedFrom(orders, run).error);
  }

  /** Every imported certificate comes from one of the orders. */
  lemma ImportedComeFromOrders(orders: seq<DigicertOrderDetails>, run: ImportRun)
    requires AllHaveCertificates(orders) && ImportedFrom(orders, run).Success?
    ensures forall c :: c in ImportedFrom(orders, run).value ==>
      exists i :: 0 <= i < |orders| && OutcomeOf(orders[i], run) == Imported(c)
  {
    var outcomes := Outcomes(orders, run);
    CollectedComeFromOutcomes(outcomes);
    forall c | c in ImportedFrom(orders, run).value
      ensures exists i :: 0 <= i < |orders| && OutcomeOf(orders[i], run) == Imported(c)
    {
      var i :| 0 <= i < |outcomes| && outcomes[i] == Imported(c);
      assert OutcomeOf(orders[i], run) == Imported(c);
    }
  }

  /** Every order whose certificate can be imported is imported, when the run succeeds. */
  lemma ImportableAreImported(orders: seq<DigicertOrderDetails>, run: ImportRun)
    requires AllHaveCertificates(orders) && ImportedFrom(orders, run).Success?
    ensures forall i :: 0 <= i < |orders| && OutcomeOf(orders[i], run).Imported? ==>
      OutcomeOf(orders[i], run).certificate in ImportedFrom(orders, run).value
  {
    ImportedOutcomesCollected(Outcomes(orders, run));
  }

  /** A fatal prefix makes the whole run fail with the prefix's error. */
  lemma FailedPrefixFails(orders: seq<DigicertOrderDetails>, k: nat, run: ImportRun)
    requires AllHaveCertificates(orders) && k <= |orders|
    requires ImportedFrom(orders[..k], run).Failure?
    ensures ImportedFrom(orders, run) == ImportedFrom(orders[..k], run)
  {
    var outcomes := Outcomes(orders, run);
    OutcomesPrefix(orders, k, run);
    assert outcomes == outcomes[..k] + outcomes[k..];
    CollectedAppend(outcomes[..k], outcomes[k..]);
  }

  /** The first order after the last one reported: the page offset plus the orders on the page. */
  function LastOffset(page: OrderSearchResponse): int
  {
    page.page.offset + |page.orders|
  }

  /** RetrieveCertificates as a function of its inputs, the clock and the CA. */
  function Retrieved(connection: Connection, importOption: ImportOption, configuration: ImportConfiguration,
                     startCursor: string, batchSize: int, now: int, ca: CaServer, dec: Decoders): (r: Result<ImportDetails, string>)
    requires ListedOrdersHaveCertificates(Listing(connection, importOption, startCursor, batchSize, ca, dec))
    ensures var listing := Listing(connection, importOption, startCursor, batchSize, ca, dec);
      && (listing.Failure? ==> r == Failure(listing.error))
      && (listing.Success? ==>
            var imported := ImportedFrom(listing.value.orders, ImportRun(connection, configuration, now, ca, dec));
            && (r.Success? <==> imported.Success?)
            && (r.Failure? ==> r.error == imported.error)
            && (r.Success? ==>
                  && r.value.importCertificates == imported.value
                  && (r.value.importStatus == ImportStatusCompleted <==> LastOffset(listing.value) == listing.value.page.total)
                  && r.value.lastProcessedCertificateID == Itoa(LastOffset(listing.value))
                  && Atoi(r.value.lastProcessedCertificateID) == Some(LastOffset(listing.value))))
  {
    match Listing(connection, importOption, startCursor, batchSize, ca, dec)
    case Failure(e) => Failure(e)
    case Success(page) =>
      var lastOffset := LastOffset(page);
      var status := if lastOffset == page.page.total then ImportStatusCompleted else ImportStatusUncompleted;
      match ImportedFrom(page.orders, ImportRun(connection, configuration, now, ca, dec))
      case Failure(e) => Failure(e)
      case Success(certificates) =>
        AtoiItoa(lastOffset);
        Success(ImportDetails(status, Itoa(lastOffset), certificates))
  }

  /** The body of the order loop of RetrieveCertificates: read the expiry
    * date, pass over an expired certificate, download and split the rest. */
  method ProcessOrder(order: DigicertOrderDetails, configuration: ImportConfiguration, now: int,
                      connection: Connection, ca: CaServer, dec: Decoders) returns (outcome: OrderOutcome)
    requires order.certificate.Some?
    ensures outcome == OutcomeOf(order, ImportRun(connection, configuration, now, ca, dec))
  {
    var dateValue := dec.date(order.certificate.value.validTill);
    if dateValue.Failure? {
      return Fatal(dateValue.error);
    }
    if dateValue.value < now && !configuration.includeExpiredCertificates {
      return Skipped;
    }
    var resp := ExecuteRequest(connection, None, "/certificate/" + Itoa(order.certificate.value.id) + "/download/format/pem_all", ca);
    if resp.Failure? {
      return Fatal(resp.error);
    }
    outcome := Skipped;
    if resp.value.body.Some? {
      var cert, chain, err := ParseCertificateData(resp.value.body.value, dec);
      if err.None? {
        outcome := Imported(ImportCertificate(Itoa(order.certificate.value.id), cert, chain));
      }
    }
  }

  /** The order loop of RetrieveCertificates: each order in turn, stopping
    * at the first fatal one. */
  method ImportOrders(orders: seq<DigicertOrderDetails>, configuration: ImportConfiguration, now: int,
                      connection: Connection, ca: CaServer, dec: Decoders) returns (r: Result<seq<ImportCertificate>, string>)
    requires AllHaveCertificates(orders)
    ensures r == ImportedFrom(orders, ImportRun(connection, configuration, now, ca, dec))
  {
    ghost var run := ImportRun(connection, configuration, now, ca, dec);
    var certificates := [];
    var k := 0;
    while k < |orders|
      invariant k <= |orders|
      invariant ImportedFrom(orders[..k], run) == Success(certificates)
    {
      ImportedFromStep(orders, k, run);
      var outcome := ProcessOrder(orders[k], configuration, now, connection, ca, dec);
      match outcome {
        case Fatal(e) =>
          FailedPrefixFails(orders, k + 1, run);
          return Failure(e);
        case Skipped =>
        case Imported(c) =>
          certificates := certificates + [c];
      }
      k := k + 1;
    }
    assert orders[..k] == orders;
    return Success(certificates);
  }

  /** RetrieveCertificates: list one page of issued orders, then download and
    * split each order's certificate in turn; the clock reading is now. */
  method RetrieveCertificates(connection: Connection, importOption: ImportOption, configuration: ImportConfiguration,
                              startCursor: string, batchSize: int, now: int, ca: CaServer, dec: Decoders)
    returns (r: Result<ImportDetails, string>)
    requires ListedOrdersHaveCertificates(Listing(connection, importOption, startCursor, batchSize, ca, dec))
    ensures r == Retrieved(connection, importOption, configuration, startCursor, batchSize, now, ca, dec)
  {
    var filters := "";
    if importOption.settings.nameID != "" {
      filters := "filters[product_name_id]=" + importOption.settings.nameID + "&";
    }
    var uri := "/order/certificate?" + filters + "filters[status]=issued&limit=" + Itoa(batchSize) + "&offset=" + startCursor + "&sort=order_id";
    ListingUriSpelledOut(importOption, filters, startCursor, batchSize);
    var resp := ExecuteRequest(connection, None, uri, ca);
    if resp.Failure? {
      return Failure(resp.error);
    }
    var searchResponse := dec.orderSearch(BodyText(resp.value.body));
    if searchResponse.Failure? {
      return Failure(searchResponse.error);
    }
    var orders := searchResponse.value.orders;
    var lastOffset := searchResponse.value.page.offset + |orders|;
    var status := ImportStatusUncompleted;
    if lastOffset == searchResponse.value.page.total {
      status := ImportStatusCompleted;
    }
    var certificates := ImportOrders(orders, configuration, now, connection, ca, dec);
    if certificates.Failure? {
      return Failure(certificates.error);
    }
    AtoiItoa(lastOffset);
    return Success(ImportDetails(status, Itoa(lastOffset), certificates.value));
  }
}
