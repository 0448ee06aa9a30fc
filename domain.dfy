/** The canonical records the connector hands back to its caller
  * (internal/app/domain). Go's nil slices are empty sequences. */
module Domain {

  /** Where the CA is and the API key that authenticates against it. */
  datatype Configuration = Configuration(serverURL: string)
  datatype Credentials = Credentials(apiKey: string)
  datatype Connection = Connection(configuration: Configuration, credentials: Credentials)

  datatype CertificateStatus =
    | CertificateStatusPending
    | CertificateStatusRequested
    | CertificateStatusIssued
    | CertificateStatusFailed

  /** A certificate request's outcome; certificate and chain are base64 DER. */
  datatype CertificateDetails = CertificateDetails(
    id: string,
    status: CertificateStatus,
    certificate: string,
    chain: seq<string>,
    errorMessage: string)

  datatype OrderStatus =
    | OrderStatusPending
    | OrderStatusProcessing
    | OrderStatusCompleted
    | OrderStatusFailed

  datatype OrderDetails = OrderDetails(
    id: string,
    status: OrderStatus,
    certificateID: string,
    errorMessage: string)

  datatype ImportConfiguration = ImportConfiguration(includeExpiredCertificates: bool)

  datatype ImportStatus = ImportStatusCompleted | ImportStatusUncompleted

  datatype ImportCertificate = ImportCertificate(id: string, certificate: string, chain: seq<string>)

  /** One page of an import; lastProcessedCertificateID is the cursor for the next page. */
  datatype ImportDetails = ImportDetails(
    importStatus: ImportStatus,
    lastProcessedCertificateID: string,
    importCertificates: seq<ImportCertificate>)

  datatype ProductType = ProductTypeSsl | ProductTypeCodeSign

  /** The issuance attributes a caller asks for. */
  datatype Product = Product(organizationID: int, hashAlgorithm: string)

  datatype ProductError = ProductError(attributeName: string, attributeValue: string)

  datatype ProductDetails = ProductDetails(
    hashes: seq<string>,
    defaultHashAlgorithm: string,
    nameID: string,
    organizations: seq<int>)

  datatype ProductOption = ProductOption(name: string, types: seq<ProductType>, details: ProductDetails)

  datatype ImportSettings = ImportSettings(nameID: string)

  datatype ImportOption = ImportOption(name: string, description: string, settings: ImportSettings)
}
