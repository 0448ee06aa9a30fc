/** RequestCertificate, CheckOrder and CheckCertificate: the issuance
  * operations, each one exchange with the CA. */
module Certificates {
  import opened Wrappers
  import opened Decimal
  import opened Base64
  import opened Domain
  import opened Wire
  import opened Decoders
  import opened Rest
  import opened PemChain

  const RequestFailedPrefix := "failed to request certificate from DigiCert CA server: "
  const UnmarshalFailedPrefix := "failed request certificate from DigiCert CA server: "

  function OrderCertificateUri(id: string): string { "/order/certificate/" + id }

  function DownloadCertificateUri(id: string): string { "/certificate/" + id + "/download/format/pem_all" }

  /** The request text with every match of the regular expression \r?\n
    * removed, scanning left to right as regexp.ReplaceAllString does. */
  function RemoveLineBreaks(s: string): (r: string)
    ensures '\n' !in r
    ensures |r| <= |s|
    decreases |s|
  {
    if s == [] then []
    else if s[0] == '\n' then RemoveLineBreaks(s[1..])
    else if s[0] == '\r' && |s| > 1 && s[1] == '\n' then RemoveLineBreaks(s[2..])
    else [s[0]] + RemoveLineBreaks(s[1..])
  }

  /** Whether the character at position i goes: a '\n', or a '\r' that a
    * '\n' follows immediately. */
  predicate IsLineBreakAt(s: string, i: nat)
    requires i < |s|
  {
    s[i] == '\n' || (s[i] == '\r' && i + 1 < |s| && s[i + 1] == '\n')
  }

  /** The characters of s from position i on that are not line breaks, in order. */
  function KeptFrom(s: string, i: nat): string
    requires i <= |s|
    decreases |s| - i
  {
    if i == |s| then [] else (if IsLineBreakAt(s, i) then [] else [s[i]]) + KeptFrom(s, i + 1)
  }

  /** Removing line breaks keeps exactly the characters that are neither a
    * '\n' nor a '\r' directly before a '\n', in their order. */
  lemma RemoveLineBreaksKeptChars(s: string)
    ensures RemoveLineBreaks(s) == KeptFrom(s, 0)
  {
    RemoveLineBreaksSuffix(s, 0);
    assert s[0..] == s;
  }

  lemma {:induction false} RemoveLineBreaksSuffix(s: string, i: nat)
    requires i <= |s|
    ensures RemoveLineBreaks(s[i..]) == KeptFrom(s, i)
    decreases |s| - i
  {
    if i < |s| {
      var t := s[i..];
      assert t[0] == s[i];
      assert t[1..] == s[i + 1..];
      if s[i] == '\r' && i + 1 < |s| && s[i + 1] == '\n' {
        assert t[1] == s[i + 1];
        assert t[2..] == s[i + 2..];
        RemoveLineBreaksSuffix(s, i + 2);
        assert IsLineBreakAt(s, i + 1);
      } else {
        RemoveLineBreaksSuffix(s, i + 1);
      }
    }
  }

  /** A text without '\n' is left as it is: a '\r' that no '\n' follows stays. */
  lemma {:induction false} RemoveLineBreaksIdentity(s: string)
    requires '\n' !in s
    ensures RemoveLineBreaks(s) == s
    decreases |s|
  {
    if s != [] {
      assert s[0] in s;
      assert |s| > 1 ==> s[1] in s;
      assert forall c :: c in s[1..] ==> c in s;
      RemoveLineBreaksIdentity(s[1..]);
    }
  }

  /** The subject common name, or the first DNS name when it is empty. */
  function CommonName(csr: Csr): string
  {
    if csr.commonName == "" && |csr.dnsNames| > 0 then csr.dnsNames[0] else csr.commonName
  }

  /** The order body built from the parsed request, the request text and the product. */
  function OrderPayload(csr: Csr, pkcs10Request: string, product: Product): (body: NewCertificateRequestBody)
    ensures csr.commonName != "" ==> body.certificate.commonName == csr.commonName
    ensures csr.commonName == "" && csr.dnsNames != [] ==> body.certificate.commonName == csr.dnsNames[0]
    ensures csr.commonName == "" && csr.dnsNames == [] ==> body.certificate.commonName == ""
    ensures csr.dnsNames != [] ==> body.certificate.dnsNames == csr.dnsNames
    ensures csr.dnsNames == [] ==> body.certificate.dnsNames == [body.certificate.commonName]
    ensures '\n' !in body.certificate.csr
    ensures body.certificate.csr == KeptFrom(pkcs10Request, 0)
    ensures body.certificate.serverPlatform == ServerPlatform(-1)
    ensures body.certificate.signatureHash == product.hashAlgorithm
    ensures body.certificate.csProvisioningMethod == ""
    ensures body.organization == DigicertOrganization(product.organizationID)
  {
    RemoveLineBreaksKeptChars(pkcs10Request);
    var commonName := CommonName(csr);
    var dnsNames := if |csr.dnsNames| == 0 then [commonName] else csr.dnsNames;
    NewCertificateRequestBody(
      CertificateRequest(commonName, dnsNames, RemoveLineBreaks(pkcs10Request), ServerPlatform(-1), product.hashAlgorithm, ""),
      DigicertOrganization(product.organizationID))
  }

  /** How the order call of RequestCertificate ends, before its answer is sorted. */
  datatype OrderAnswer =
    | CsrRejected(error: string)
    | CaFailed(error: string)
    | Undecodable(error: string)
    | Answered(response: RequestCertificateResponse)

  function ParsedCsr(pkcs10Request: string, dec: Decoders): Result<Csr, string>
    requires dec.pem(pkcs10Request) != []
  {
    dec.csr(dec.pem(pkcs10Request)[0].bytes)
  }

  function OrderAnswerOf(connection: Connection, pkcs10Request: string, product: Product,
                         productDetails: ProductDetails, ca: CaServer, dec: Decoders): (answer: OrderAnswer)
    requires dec.pem(pkcs10Request) != []
    ensures answer.CsrRejected? <==> ParsedCsr(pkcs10Request, dec).Failure?
    ensures answer.CsrRejected? ==> answer.error == ParsedCsr(pkcs10Request, dec).error
    ensures !answer.CsrRejected? ==>
      var request := NewRequest(connection, Some(OrderPayload(ParsedCsr(pkcs10Request, dec).value, pkcs10Request, product)),
                                OrderCertificateUri(productDetails.nameID));
      var outcome := ca(request);
      && request.verb == MethodPost
      && (answer.CaFailed? <==> !(outcome.HttpResponse? && IsSuccessStatus(outcome.statusCode)))
      && (answer.CaFailed? && outcome.TransportError? ==> answer.error == outcome.cause)
      && (answer.CaFailed? && outcome.HttpResponse? ==> answer.error == BodyText(outcome.body))
      && (answer.Undecodable? ==> outcome.HttpResponse? && dec.orderResponse(BodyText(outcome.body)) == Failure(answer.error))
      && (answer.Answered? ==> outcome.HttpResponse? && dec.orderResponse(BodyText(outcome.body)) == Success(answer.response))
  {
    match ParsedCsr(pkcs10Request, dec)
    case Failure(e) => CsrRejected(e)
    case Success(csr) =>
      var payload := OrderPayload(csr, pkcs10Request, product);
      match ExecuteRequest(connection, Some(payload), OrderCertificateUri(productDetails.nameID), ca)
      case Failure(e) => CaFailed(e)
      case Success(reply) =>
        match dec.orderResponse(BodyText(reply.body))
        case Failure(e) => Undecodable(e)
        case Success(response) => Answered(response)
  }

  /** The code reads the first PEM block of every chain entry it is given. */
  predicate ChainEntriesDecode(answer: OrderAnswer, dec: Decoders)
  {
    answer.Answered? && answer.response.certificateChain.Some? ==>
      forall i :: 0 <= i < |answer.response.certificateChain.value| ==>
        dec.pem(answer.response.certificateChain.value[i].pem) != []
  }

  /** The DER of the first PEM block of each chain entry. */
  function EntryDers(entries: seq<CertificateChainEntry>, dec: Decoders): (ders: seq<seq<byte>>)
    requires forall i :: 0 <= i < |entries| ==> dec.pem(entries[i].pem) != []
    ensures |ders| == |entries|
  {
    seq(|entries|, i requires 0 <= i < |entries| => dec.pem(entries[i].pem)[0].bytes)
  }

  /** The certificate and chain of an Issued answer: the base64 DER of the
    * first entry, then that of each later entry. An empty chain gives an
    * empty certificate. */
  function IssuedParts(entries: seq<CertificateChainEntry>, dec: Decoders): (parts: (string, seq<string>))
    requires forall i :: 0 <= i < |entries| ==> dec.pem(entries[i].pem) != []
    ensures entries == [] ==> parts == ("", [])
    ensures entries != [] ==> parts.0 == Encode(dec.pem(entries[0].pem)[0].bytes)
    ensures entries != [] ==> parts.1 == EncodeAll(EntryDers(entries, dec)[1..])
    ensures entries != [] ==> Decode(parts.0) == Some(dec.pem(entries[0].pem)[0].bytes)
    ensures |parts.1| == if entries == [] then 0 else |entries| - 1
    ensures forall i :: 0 <= i < |parts.1| ==> Decode(parts.1[i]) == Some(dec.pem(entries[i + 1].pem)[0].bytes)
  {
    var ders := EntryDers(entries, dec);
    if ders == [] then ("", [])
    else
      DecodeEncode(ders[0]);
      (Encode(ders[0]), EncodeAll(ders[1..]))
  }

  /** The loop of RequestCertificate over the chain entries: the first entry
    * becomes the certificate, the rest the chain, in order. */
  method EncodeChainEntries(entries: seq<CertificateChainEntry>, dec: Decoders) returns (leaf: string, chain: seq<string>)
    requires forall i :: 0 <= i < |entries| ==> dec.pem(entries[i].pem) != []
    ensures (leaf, chain) == IssuedParts(entries, dec)
  {
    ghost var ders := EntryDers(entries, dec);
    leaf, chain := "", [];
    var i := 0;
    while i < |entries|
      invariant i <= |entries|
      invariant leaf == if i == 0 then "" else Encode(ders[0])
      invariant chain == if i == 0 then [] else EncodeAll(ders[1..i])
    {
      var block := dec.pem(entries[i].pem)[0];
      assert block.bytes == ders[i];
      if i == 0 {
        leaf := Encode(block.bytes);
      } else {
        assert ders[1..i + 1] == ders[1..i] + [ders[i]];
        EncodeAllSnoc(ders[1..i], ders[i]);
        chain := chain + [Encode(block.bytes)];
      }
      i := i + 1;
    }
    if entries != [] {
      assert ders[1..] == ders[1..|entries|];
    }
  }

  function FailedDetails(message: string): CertificateDetails
  {
    CertificateDetails("", CertificateStatusFailed, "", [], message)
  }

  /** RequestCertificate: a rejected request is an error; a failed CA call or
    * an undecodable answer is a Failed result and not an error; a chain in the
    * answer makes the certificate Issued, a certificate id alone Requested,
    * and anything else an order still Processing. */
  method RequestCertificate(connection: Connection, pkcs10Request: string, product: Product,
                            productDetails: ProductDetails, ca: CaServer, dec: Decoders)
    returns (details: Option<CertificateDetails>, order: Option<OrderDetails>, err: Option<string>)
    requires dec.pem(pkcs10Request) != []
    requires ChainEntriesDecode(OrderAnswerOf(connection, pkcs10Request, product, productDetails, ca, dec), dec)
    ensures var answer := OrderAnswerOf(connection, pkcs10Request, product, productDetails, ca, dec);
      && (err.Some? <==> answer.CsrRejected?)
      && (answer.CsrRejected? ==> err == Some(answer.error) && details.None? && order.None?)
      && (!answer.CsrRejected? ==> details.Some? != order.Some?)
      && (answer.CaFailed? ==> details == Some(FailedDetails(RequestFailedPrefix + answer.error)))
      && (answer.Undecodable? ==> details == Some(FailedDetails(UnmarshalFailedPrefix + answer.error)))
    ensures var answer := OrderAnswerOf(connection, pkcs10Request, product, productDetails, ca, dec);
      answer.Answered? ==>
        var response := answer.response;
        if response.certificateChain.Some? then
          var parts := IssuedParts(response.certificateChain.value, dec);
          details == Some(CertificateDetails(Itoa(response.certificateID), CertificateStatusIssued, parts.0, parts.1, ""))
        else if response.certificateID != 0 then
          details == Some(CertificateDetails(Itoa(response.certificateID), CertificateStatusRequested, "", [], ""))
        else
          order == Some(OrderDetails(Itoa(response.id), OrderStatusProcessing, "", ""))
  {
    var pemBlock := dec.pem(pkcs10Request)[0];
    var csr := dec.csr(pemBlock.bytes);
    if csr.Failure? {
      return None, None, Some(csr.error);
    }
    var requestBody := OrderPayload(csr.value, pkcs10Request, product);
    var resp := ExecuteRequest(connection, Some(requestBody), OrderCertificateUri(productDetails.nameID), ca);
    if resp.Failure? {
      return Some(FailedDetails(RequestFailedPrefix + resp.error)), None, None;
    }
    var digicertResponse := dec.orderResponse(BodyText(resp.value.body));
    if digicertResponse.Failure? {
      return Some(FailedDetails(UnmarshalFailedPrefix + digicertResponse.error)), None, None;
    }
    var response := digicertResponse.value;
    if response.certificateChain.Some? || response.certificateID != 0 {
      var certificateDetails := CertificateDetails(Itoa(response.certificateID), CertificateStatusRequested, "", [], "");
      if response.certificateChain.Some? {
        var leaf, chain := EncodeChainEntries(response.certificateChain.value, dec);
        certificateDetails := certificateDetails.(status := CertificateStatusIssued, certificate := leaf, chain := chain);
      }
      return Some(certificateDetails), None, None;
    }
    var orderDetails := OrderDetails(Itoa(response.id), OrderStatusProcessing, "", "");
    return None, Some(orderDetails), None;
  }

  // CheckOrder

  /** The CA's order status words on the canonical order status. */
  function OrderStatusOf(status: string): (s: OrderStatus)
    ensures s == OrderStatusCompleted <==> status == "issued"
    ensures s == OrderStatusProcessing <==> status in {"pending", "needs_approval", "processing"}
    ensures s == OrderStatusFailed <==> status !in {"issued", "pending", "needs_approval", "processing"}
    ensures s != OrderStatusPending
  {
    if status == "issued" then OrderStatusCompleted
    else if status == "pending" || status == "needs_approval" || status == "processing" then OrderStatusProcessing
    else OrderStatusFailed
  }

  /** GET /order/certificate/<id>, decoded. */
  function OrderLookup(connection: Connection, id: string, ca: CaServer, dec: Decoders): Result<DigicertOrderDetails, string>
  {
    match ExecuteRequest(connection, None, OrderCertificateUri(id), ca)
    case Failure(e) => Failure(e)
    case Success(reply) => dec.orderDetails(BodyText(reply.body))
  }

  /** The code reads the certificate of every issued order. */
  predicate IssuedOrderHasCertificate(lookup: Result<DigicertOrderDetails, string>)
  {
    lookup.Success? && lookup.value.status == "issued" ==> lookup.value.certificate.Some?
  }

  /** CheckOrder: errors pass through; the status is mapped, and the
    * certificate id is reported when the order is issued or its certificate
    * id is positive, whatever the status. */
  function CheckOrder(connection: Connection, id: string, ca: CaServer, dec: Decoders): (r: Result<OrderDetails, string>)
    requires IssuedOrderHasCertificate(OrderLookup(connection, id, ca, dec))
    ensures var lookup := OrderLookup(connection, id, ca, dec);
      && (r.Failure? <==> lookup.Failure?)
      && (r.Failure? ==> r.error == lookup.error)
      && (r.Success? ==>
            && r.value.id == id
            && r.value.status == OrderStatusOf(lookup.value.status)
            && r.value.errorMessage == ""
            && (r.value.certificateID != "" <==>
                  lookup.value.status == "issued" || (lookup.value.certificate.Some? && lookup.value.certificate.value.id > 0))
            && (r.value.certificateID != "" ==> r.value.certificateID == Itoa(lookup.value.certificate.value.id)))
  {
    match OrderLookup(connection, id, ca, dec)
    case Failure(e) => Failure(e)
    case Success(o) =>
      var certificateID :=
        if o.status == "issued" || (o.certificate.Some? && o.certificate.value.id > 0) then Itoa(o.certificate.value.id) else "";
      Success(OrderDetails(id, OrderStatusOf(o.status), certificateID, ""))
  }

  // CheckCertificate

  /** CheckCertificate: no body means the certificate is still Requested; a
    * body is split into leaf and chain and makes it Issued, and a body that
    * does not split is an error. */
  method CheckCertificate(connection: Connection, id: string, ca: CaServer, dec: Decoders) returns (r: Result<CertificateDetails, string>)
    ensures var reply := ExecuteRequest(connection, None, DownloadCertificateUri(id), ca);
      && (reply.Failure? ==> r == Failure(reply.error))
      && (reply.Success? && reply.value.body.None? ==>
            r == Success(CertificateDetails(id, CertificateStatusRequested, "", [], "")))
      && (reply.Success? && reply.value.body.Some? ==>
            match SplitChain(dec.pem(reply.value.body.value), dec.x509)
            case Failure(e) => r == Failure(e)
            case Success((leaf, chain)) => r == Success(CertificateDetails(id, CertificateStatusIssued, leaf, chain, "")))
  {
    var resp := ExecuteRequest(connection, None, DownloadCertificateUri(id), ca);
    if resp.Failure? {
      return Failure(resp.error);
    }
    var certDetails := CertificateDetails(id, CertificateStatusRequested, "", [], "");
    if resp.value.body.Some? {
      var cert, chain, err := ParseCertificateData(resp.value.body.value, dec);
      if err.Some? {
        return Failure(err.value);
      }
      certDetails := certDetails.(status := CertificateStatusIssued, certificate := cert, chain := chain);
    }
    return Success(certDetails);
  }
}
