/** The DigiCert CA's JSON bodies as the connector declares them
  * (the request and response structs of certificate.go and options.go).
  * A JSON pointer field is an Option; an absent JSON array is None where
  * the code tells nil from empty, and the empty sequence elsewhere. */
module Wire {
  import opened Wrappers

  // Order request (POST /order/certificate/<name id>)

  datatype ServerPlatform = ServerPlatform(id: int)

  datatype CertificateRequest = CertificateRequest(
    commonName: string,
    dnsNames: seq<string>,
    csr: string,
    serverPlatform: ServerPlatform,
    signatureHash: string,
    csProvisioningMethod: string)

  datatype DigicertOrganization = DigicertOrganization(id: int)

  datatype NewCertificateRequestBody = NewCertificateRequestBody(
    certificate: CertificateRequest,
    organization: DigicertOrganization)

  // Order response

  datatype CertificateChainEntry = CertificateChainEntry(pem: string)

  datatype RequestCertificateResponse = RequestCertificateResponse(
    id: int,
    certificateID: int,
    certificateChain: Option<seq<CertificateChainEntry>>)

  // Order details and order search

  datatype OrderCertificate = OrderCertificate(id: int, validTill: string)

  datatype DigicertOrderDetails = DigicertOrderDetails(
    id: int,
    status: string,
    certificate: Option<OrderCertificate>)

  datatype Page = Page(total: int, limit: int, offset: int)

  datatype OrderSearchResponse = OrderSearchResponse(orders: seq<DigicertOrderDetails>, page: Page)

  // Organizations and products

  datatype Organization = Organization(id: int, name: string, status: string, isActive: bool)

  datatype OrganizationsResponse = OrganizationsResponse(organizations: seq<Organization>)

  datatype HashType = HashType(id: string, name: string)

  datatype SignatureHashTypes = SignatureHashTypes(allowedHashTypes: seq<HashType>, defaultHashType: string)

  datatype DigicertProduct = DigicertProduct(
    hashes: SignatureHashTypes,
    certificateType: string,
    name: string,
    nameID: string)

  datatype ProductsResponse = ProductsResponse(products: seq<DigicertProduct>)
}
