/** The library calls the connector makes on data it receives, taken as
  * inputs: each is a fixed function of its argument, so the model is
  * deterministic in them. */
module Decoders {
  import opened Wrappers
  import opened Base64
  import opened Wire

  /** A block as pem.Decode returns it: its type line and its DER bytes. */
  datatype PemBlock = PemBlock(blockType: string, bytes: seq<byte>)

  /** What x509.ParseCertificateRequest recovers from a PKCS#10 request. */
  datatype Csr = Csr(commonName: string, dnsNames: seq<string>)

  /** pem: the blocks pem.Decode finds in a text, one call after another on
    * the remainder, until it returns nil.
    * x509: the error text of x509.ParseCertificate on DER bytes, None when
    * they parse (a parsed certificate's Raw is then those bytes).
    * csr: x509.ParseCertificateRequest on DER bytes.
    * date: time.Parse("2006-01-02", s) as an instant comparable with the clock.
    * The remaining fields are json.Unmarshal into each CA response struct. */
  datatype Decoders = Decoders(
    pem: string -> seq<PemBlock>,
    x509: seq<byte> -> Option<string>,
    csr: seq<byte> -> Result<Csr, string>,
    date: string -> Result<int, string>,
    orderResponse: string -> Result<RequestCertificateResponse, string>,
    orderDetails: string -> Result<DigicertOrderDetails, string>,
    orderSearch: string -> Result<OrderSearchResponse, string>,
    organizations: string -> Result<OrganizationsResponse, string>,
    products: string -> Result<ProductsResponse, string>)
}
