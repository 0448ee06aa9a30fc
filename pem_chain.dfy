/** parseCertificatePEM and parseCertificateData: split a concatenated PEM
  * document into the leaf certificate and the rest of its chain, each
  * re-encoded as base64 DER. A PEM document is the sequence of blocks
  * pem.Decode yields from it, one call after another. */
module PemChain {
  import opened Wrappers
  import opened Base64
  import opened Decoders

  type X509Parser = seq<byte> -> Option<string>

  const NoBlockError := "failed to decode any certificate PEM block"
  const ParseErrorPrefix := "error parsing TLS certificate: "

  /** The x509 error of the first block that is not a certificate, if any. */
  function FirstParseError(doc: seq<PemBlock>, x509: X509Parser): (e: Option<string>)
    ensures e.None? <==> forall i :: 0 <= i < |doc| ==> x509(doc[i].bytes).None?
    ensures e.Some? ==> exists k :: (0 <= k < |doc| && x509(doc[k].bytes) == e
      && forall i :: 0 <= i < k ==> x509(doc[i].bytes).None?)
  {
    if doc == [] then None
    else if x509(doc[0].bytes).Some? then x509(doc[0].bytes)
    else
      var e := FirstParseError(doc[1..], x509);
      assert e.Some? ==> exists k :: (1 <= k < |doc| && x509(doc[k].bytes) == e
        && forall i :: 0 <= i < k ==> x509(doc[i].bytes).None?) by {
        if e.Some? {
          var k :| 0 <= k < |doc[1..]| && x509(doc[1..][k].bytes) == e
            && forall i :: 0 <= i < k ==> x509(doc[1..][i].bytes).None?;
          assert forall i :: 1 <= i < k + 1 ==> x509(doc[i].bytes).None? by {
            forall i | 1 <= i < k + 1 ensures x509(doc[i].bytes).None? {
              assert doc[i] == doc[1..][i - 1];
            }
          }
        }
      }
      e
  }

  /** The DER bytes of each block, in order. */
  function Ders(doc: seq<PemBlock>): (ders: seq<seq<byte>>)
    ensures |ders| == |doc|
    ensures forall i :: 0 <= i < |doc| ==> ders[i] == doc[i].bytes
  {
    seq(|doc|, i requires 0 <= i < |doc| => doc[i].bytes)
  }

  /** What parseCertificatePEM returns: the DER of every block, provided there
    * is at least one and each parses as an X.509 certificate. */
  function Certificates(doc: seq<PemBlock>, x509: X509Parser): (r: Result<seq<seq<byte>>, string>)
    ensures r.Success? <==> doc != [] && forall i :: 0 <= i < |doc| ==> x509(doc[i].bytes).None?
    ensures r.Success? ==> |r.value| == |doc| && forall i :: 0 <= i < |doc| ==> r.value[i] == doc[i].bytes
    ensures doc == [] ==> r == Failure(NoBlockError)
    ensures r.Failure? && doc != [] ==> exists k :: (0 <= k < |doc| && x509(doc[k].bytes).Some?
      && r.error == ParseErrorPrefix + x509(doc[k].bytes).value
      && forall i :: 0 <= i < k ==> x509(doc[i].bytes).None?)
  {
    match FirstParseError(doc, x509)
    case Some(e) => Failure(ParseErrorPrefix + e)
    case None => if doc == [] then Failure(NoBlockError) else Success(Ders(doc))
  }

  /** A block that parses does not change the first error. */
  lemma FirstParseErrorSkip(doc: seq<PemBlock>, x509: X509Parser)
    requires doc != [] && x509(doc[0].bytes).None?
    ensures FirstParseError(doc[1..], x509) == FirstParseError(doc, x509)
  {
  }

  lemma DersSnoc(doc: seq<PemBlock>, k: nat)
    requires k < |doc|
    ensures Ders(doc[..k + 1]) == Ders(doc[..k]) + [doc[k].bytes]
  {
  }

  /** parseCertificatePEM: consumes the blocks one at a time, stopping at the
    * first that does not parse. */
  method ParseCertificatePEM(certBytes: seq<PemBlock>, x509: X509Parser) returns (r: Result<seq<seq<byte>>, string>)
    ensures r == Certificates(certBytes, x509)
  {
    var certs: seq<seq<byte>> := [];
    var certDecoder := certBytes;
    ghost var consumed := 0;
    while certDecoder != []
      invariant consumed <= |certBytes| && certDecoder == certBytes[consumed..]
      invariant certs == Ders(certBytes[..consumed])
      invariant FirstParseError(certDecoder, x509) == FirstParseError(certBytes, x509)
      decreases |certDecoder|
    {
      var block := certDecoder[0];
      if x509(block.bytes).None? {
        FirstParseErrorSkip(certDecoder, x509);
        DersSnoc(certBytes, consumed);
      }
      certDecoder := certDecoder[1..];
      consumed := consumed + 1;
      var err := x509(block.bytes);
      if err.Some? {
        return Failure(ParseErrorPrefix + err.value);
      }
      certs := certs + [block.bytes];
    }
    assert certBytes[..consumed] == certBytes;
    if |certs| == 0 {
      return Failure(NoBlockError);
    }
    return Success(certs);
  }

  lemma EncodeAllSnoc(ders: seq<seq<byte>>, der: seq<byte>)
    ensures EncodeAll(ders + [der]) == EncodeAll(ders) + [Encode(der)]
  {
  }

  /** The base64 encoding of each DER, in order. */
  function EncodeAll(ders: seq<seq<byte>>): (texts: seq<string>)
    ensures |texts| == |ders|
    ensures forall i :: 0 <= i < |ders| ==> texts[i] == Encode(ders[i])
    ensures forall i :: 0 <= i < |ders| ==> Decode(texts[i]) == Some(ders[i])
  {
    var texts := seq(|ders|, i requires 0 <= i < |ders| => Encode(ders[i]));
    assert forall i :: 0 <= i < |ders| ==> Decode(texts[i]) == Some(ders[i]) by {
      forall i | 0 <= i < |ders| ensures Decode(texts[i]) == Some(ders[i]) {
        DecodeEncode(ders[i]);
      }
    }
    texts
  }

  /** What parseCertificateData returns: the leaf and the chain after it. */
  function SplitChain(doc: seq<PemBlock>, x509: X509Parser): (r: Result<(string, seq<string>), string>)
    ensures r.Success? <==> Certificates(doc, x509).Success?
    ensures r.Failure? ==> r.error == Certificates(doc, x509).error
    ensures r.Success? ==> r.value.0 == Encode(doc[0].bytes) && r.value.1 == EncodeAll(Ders(doc[1..]))
  {
    match Certificates(doc, x509)
    case Failure(e) => Failure(e)
    case Success(ders) => Success((Encode(ders[0]), EncodeAll(ders[1..])))
  }

  /** Splitting a chain of certificates gives back each one's DER, in order:
    * the leaf from the first block and the chain from the others. */
  lemma SplitChainRoundTrip(doc: seq<PemBlock>, x509: X509Parser)
    requires doc != [] && forall i :: 0 <= i < |doc| ==> x509(doc[i].bytes).None?
    ensures SplitChain(doc, x509).Success?
    ensures var (leaf, chain) := SplitChain(doc, x509).value;
      && Decode(leaf) == Some(doc[0].bytes)
      && |chain| == |doc| - 1
      && forall i :: 0 <= i < |chain| ==> Decode(chain[i]) == Some(doc[i + 1].bytes)
  {
    DecodeEncode(doc[0].bytes);
  }

  /** parseCertificateData: the leaf is encoded first, then the chain is
    * built by appending the encoding of each later certificate. */
  method ParseCertificateData(pemData: string, dec: Decoders) returns (cert: string, chain: seq<string>, err: Option<string>)
    ensures var split := SplitChain(dec.pem(pemData), dec.x509);
      && (err.None? <==> split.Success?)
      && (split.Success? ==> cert == split.value.0 && chain == split.value.1)
      && (split.Failure? ==> err == Some(split.error) && cert == "" && chain == [])
  {
    var certs := ParseCertificatePEM(dec.pem(pemData), dec.x509);
    if certs.Failure? {
      return "", [], Some(certs.error);
    }
    var ders := certs.value;
    cert := Encode(ders[0]);
    chain := [];
    if |ders| > 1 {
      var i := 1;
      while i < |ders|
        invariant 1 <= i <= |ders|
        invariant chain == EncodeAll(ders[1..i])
      {
        assert ders[1..i + 1] == ders[1..i] + [ders[i]];
        EncodeAllSnoc(ders[1..i], ders[i]);
        chain := chain + [Encode(ders[i])];
        i := i + 1;
      }
    }
    assert ders[1..] == ders[1..|ders|];
    err := None;
  }
}
