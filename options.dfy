/** GetOptions and ValidateProduct: the products and organizations the CA
  * offers, and a caller's product checked against them. */
module Options {
  import opened Wrappers
  import opened Decimal
  import opened Domain
  import opened Wire
  import opened Decoders
  import opened Rest

  const OrganizationsUri := "/organization"
  const ProductsUri := "/product"
  const SslCertificate := "ssl_certificate"
  const CodeSigningCertificate := "code_signing_certificate"

  /** The ids of the active organizations, in the order listed. */
  function ActiveOrganizations(orgs: seq<Organization>): (ids: seq<int>)
    ensures |ids| <= |orgs|
  {
    if orgs == [] then []
    else
      var last := orgs[|orgs| - 1];
      ActiveOrganizations(orgs[..|orgs| - 1]) + (if last.isActive then [last.id] else [])
  }

  /** An id is listed exactly when some active organization has it. */
  lemma {:induction false} ActiveOrganizationsMembership(orgs: seq<Organization>, id: int)
    ensures id in ActiveOrganizations(orgs) <==> exists i :: 0 <= i < |orgs| && orgs[i].isActive && orgs[i].id == id
  {
    if orgs != [] {
      var n := |orgs| - 1;
      ActiveOrganizationsMembership(orgs[..n], id);
      assert forall i :: 0 <= i < n ==> orgs[..n][i] == orgs[i];
    }
  }

  /** The active ids of a longer listing are those of its first part followed
    * by those of the rest: the listing order is kept. */
  lemma {:induction false} ActiveOrganizationsAppend(a: seq<Organization>, b: seq<Organization>)
    ensures ActiveOrganizations(a + b) == ActiveOrganizations(a) + ActiveOrganizations(b)
    decreases |b|
  {
    if b == [] {
      assert a + b == a;
    } else {
      var n := |b| - 1;
      assert (a + b)[..|a + b| - 1] == a + b[..n];
      ActiveOrganizationsAppend(a, b[..n]);
    }
  }

  /** Only SSL and code signing products are offered. */
  predicate IsOffered(product: DigicertProduct)
  {
    product.certificateType == SslCertificate || product.certificateType == CodeSigningCertificate
  }

  function ProductTypeOf(certificateType: string): (t: ProductType)
    ensures t == ProductTypeCodeSign <==> certificateType == CodeSigningCertificate
  {
    if certificateType == CodeSigningCertificate then ProductTypeCodeSign else ProductTypeSsl
  }

  /** The ids of the allowed hash types, in order. */
  function HashIDs(hashTypes: seq<HashType>): (ids: seq<string>)
    ensures |ids| == |hashTypes|
    ensures forall i :: 0 <= i < |hashTypes| ==> ids[i] == hashTypes[i].id
  {
    if hashTypes == [] then [] else HashIDs(hashTypes[..|hashTypes| - 1]) + [hashTypes[|hashTypes| - 1].id]
  }

  function ProductOptionOf(product: DigicertProduct, activeOrganizations: seq<int>): (option: ProductOption)
    ensures option.types == [ProductTypeSsl] || option.types == [ProductTypeCodeSign]
    ensures option.types == [ProductTypeCodeSign] <==> product.certificateType == CodeSigningCertificate
    ensures option.name == product.name
    ensures |option.details.hashes| == |product.hashes.allowedHashTypes|
    ensures forall i :: 0 <= i < |option.details.hashes| ==> option.details.hashes[i] == product.hashes.allowedHashTypes[i].id
    ensures option.details.defaultHashAlgorithm == product.hashes.defaultHashType
    ensures option.details.nameID == product.nameID
    ensures option.details.organizations == activeOrganizations
  {
    ProductOption(product.name, [ProductTypeOf(product.certificateType)],
      ProductDetails(HashIDs(product.hashes.allowedHashTypes), product.hashes.defaultHashType, product.nameID, activeOrganizations))
  }

  /** The import option of a product: its name, its product name id, and a
    * description naming its certificate type. */
  function ImportOptionOf(product: DigicertProduct): (option: ImportOption)
    ensures option.name == product.name
    ensures option.settings.nameID == product.nameID
    ensures option.description == product.certificateType + " certificates will be available for import"
  {
    ImportOption(product.name, product.certificateType + " certificates will be available for import", ImportSettings(product.nameID))
  }

  /** The offered products, in the order listed. */
  function Offered(products: seq<DigicertProduct>): (offered: seq<DigicertProduct>)
    ensures |offered| <= |products|
    ensures forall p :: p in offered ==> IsOffered(p) && p in products
  {
    if products == [] then []
    else
      var last := products[|products| - 1];
      Offered(products[..|products| - 1]) + (if IsOffered(last) then [last] else [])
  }

  /** Every offered product is kept. */
  lemma {:induction false} OfferedComplete(products: seq<DigicertProduct>)
    ensures forall p :: p in products && IsOffered(p) ==> p in Offered(products)
  {
    if products != [] {
      var n := |products| - 1;
      OfferedComplete(products[..n]);
      assert forall p :: p in products ==> p in products[..n] || p == products[n];
    }
  }

  /** Filtering a longer listing keeps the offered products of each part, in order. */
  lemma {:induction false} OfferedAppend(a: seq<DigicertProduct>, b: seq<DigicertProduct>)
    ensures Offered(a + b) == Offered(a) + Offered(b)
    decreases |b|
  {
    if b == [] {
      assert a + b == a;
    } else {
      var n := |b| - 1;
      assert (a + b)[..|a + b| - 1] == a + b[..n];
      OfferedAppend(a, b[..n]);
    }
  }

  function ProductOptions(offered: seq<DigicertProduct>, activeOrganizations: seq<int>): (options: seq<ProductOption>)
    ensures |options| == |offered|
    ensures forall i :: 0 <= i < |offered| ==> options[i] == ProductOptionOf(offered[i], activeOrganizations)
  {
    seq(|offered|, i requires 0 <= i < |offered| => ProductOptionOf(offered[i], activeOrganizations))
  }

  function ImportOptions(offered: seq<DigicertProduct>): (options: seq<ImportOption>)
    ensures |options| == |offered|
    ensures forall i :: 0 <= i < |offered| ==> options[i] == ImportOptionOf(offered[i])
  {
    seq(|offered|, i requires 0 <= i < |offered| => ImportOptionOf(offered[i]))
  }

  /** One more listed product: the step of the product loop. */
  lemma OfferedStep(products: seq<DigicertProduct>, k: nat)
    requires k < |products|
    ensures Offered(products[..k + 1]) == Offered(products[..k]) + (if IsOffered(products[k]) then [products[k]] else [])
  {
    assert products[..k + 1][..k] == products[..k];
  }

  lemma OptionsSnoc(offered: seq<DigicertProduct>, product: DigicertProduct, activeOrganizations: seq<int>)
    ensures ProductOptions(offered + [product], activeOrganizations)
            == ProductOptions(offered, activeOrganizations) + [ProductOptionOf(product, activeOrganizations)]
    ensures ImportOptions(offered + [product]) == ImportOptions(offered) + [ImportOptionOf(product)]
  {
  }

  /** GET /organization, decoded. */
  function OrganizationsLookup(connection: Connection, ca: CaServer, dec: Decoders): Result<OrganizationsResponse, string>
  {
    match ExecuteRequest(connection, None, OrganizationsUri, ca)
    case Failure(e) => Failure(e)
    case Success(reply) => dec.organizations(BodyText(reply.body))
  }

  /** GET /product, decoded. */
  function ProductsLookup(connection: Connection, ca: CaServer, dec: Decoders): Result<ProductsResponse, string>
  {
    match ExecuteRequest(connection, None, ProductsUri, ca)
    case Failure(e) => Failure(e)
    case Success(reply) => dec.products(BodyText(reply.body))
  }

  /** GetOptions as a function of the CA: an option pair per offered product,
    * in order, each product option carrying every active organization. */
  function OfferedOptions(connection: Connection, ca: CaServer, dec: Decoders): (r: Result<(seq<ProductOption>, seq<ImportOption>), string>)
    ensures var orgs := OrganizationsLookup(connection, ca, dec);
      var products := ProductsLookup(connection, ca, dec);
      && (orgs.Failure? ==> r == Failure(orgs.error))
      && (orgs.Success? && products.Failure? ==> r == Failure(products.error))
      && (orgs.Success? && products.Success? ==> r.Success?)
    ensures r.Success? ==>
      r.value == (var offered := Offered(ProductsLookup(connection, ca, dec).value.products);
                  (ProductOptions(offered, ActiveOrganizations(OrganizationsLookup(connection, ca, dec).value.organizations)),
                   ImportOptions(offered)))
  {
    match OrganizationsLookup(connection, ca, dec)
    case Failure(e) => Failure(e)
    case Success(orgResponse) =>
      match ProductsLookup(connection, ca, dec)
      case Failure(e) => Failure(e)
      case Success(productResponse) =>
        var offered := Offered(productResponse.products);
        Success((ProductOptions(offered, ActiveOrganizations(orgResponse.organizations)), ImportOptions(offered)))
  }

  /** Product and import options come in pairs, index by index: the same
    * product name and the same product name id. */
  lemma OptionsCorrespond(offered: seq<DigicertProduct>, activeOrganizations: seq<int>)
    ensures var productOptions := ProductOptions(offered, activeOrganizations);
      var importOptions := ImportOptions(offered);
      && |productOptions| == |importOptions|
      && forall i :: 0 <= i < |productOptions| ==>
           && productOptions[i].name == importOptions[i].name
           && productOptions[i].details.nameID == importOptions[i].settings.nameID
           && productOptions[i].details.organizations == activeOrganizations
  {
  }

  /** Each product option is that of a listed SSL or code signing product. */
  lemma OptionFromOfferedProduct(products: seq<DigicertProduct>, activeOrganizations: seq<int>, i: nat)
    requires i < |Offered(products)|
    ensures exists p :: p in products && IsOffered(p) && ProductOptions(Offered(products), activeOrganizations)[i] == ProductOptionOf(p, activeOrganizations)
  {
    var offered := Offered(products);
    var p := offered[i];
    assert p in offered;
    assert ProductOptions(offered, activeOrganizations)[i] == ProductOptionOf(p, activeOrganizations);
  }

  /** Each listed SSL or code signing product has its product option. */
  lemma OfferedProductsHaveOptions(products: seq<DigicertProduct>, activeOrganizations: seq<int>)
    ensures var productOptions := ProductOptions(Offered(products), activeOrganizations);
      forall p :: p in products && IsOffered(p) ==> ProductOptionOf(p, activeOrganizations) in productOptions
  {
    var offered := Offered(products);
    OfferedComplete(products);
    forall p | p in products && IsOffered(p)
      ensures ProductOptionOf(p, activeOrganizations) in ProductOptions(offered, activeOrganizations)
    {
      var i :| 0 <= i < |offered| && offered[i] == p;
      assert ProductOptions(offered, activeOrganizations)[i] == ProductOptionOf(p, activeOrganizations);
    }
  }

  /** GetOptions: the organizations call, then the products call, then one
    * product option and one import option per offered product. */
  method GetOptions(connection: Connection, ca: CaServer, dec: Decoders)
    returns (productOptions: seq<ProductOption>, importOptions: seq<ImportOption>, err: Option<string>)
    ensures var r := OfferedOptions(connection, ca, dec);
      && (err.None? <==> r.Success?)
      && (r.Success? ==> (productOptions, importOptions) == r.value)
      && (r.Failure? ==> err == Some(r.error) && productOptions == [] && importOptions == [])
  {
    var resp := ExecuteRequest(connection, None, OrganizationsUri, ca);
    if resp.Failure? {
      return [], [], Some(resp.error);
    }
    var orgResponse := dec.organizations(BodyText(resp.value.body));
    if orgResponse.Failure? {
      return [], [], Some(orgResponse.error);
    }
    var activeOrganizations := CollectActiveOrganizations(orgResponse.value.organizations);
    resp := ExecuteRequest(connection, None, ProductsUri, ca);
    if resp.Failure? {
      return [], [], Some(resp.error);
    }
    var productResponse := dec.products(BodyText(resp.value.body));
    if productResponse.Failure? {
      return [], [], Some(productResponse.error);
    }
    productOptions, importOptions := CollectOptions(productResponse.value.products, activeOrganizations);
    err := None;
  }

  /** The first loop of GetOptions: the ids of the active organizations. */
  method CollectActiveOrganizations(orgs: seq<Organization>) returns (activeOrganizations: seq<int>)
    ensures activeOrganizations == ActiveOrganizations(orgs)
  {
    activeOrganizations := [];
    var k := 0;
    while k < |orgs|
      invariant k <= |orgs|
      invariant activeOrganizations == ActiveOrganizations(orgs[..k])
    {
      assert orgs[..k + 1][..k] == orgs[..k];
      if orgs[k].isActive {
        activeOrganizations := activeOrganizations + [orgs[k].id];
      }
      k := k + 1;
    }
    assert orgs[..k] == orgs;
  }

  /** The inner loop of GetOptions: the ids of a product's allowed hash types. */
  method CollectHashes(hashTypes: seq<HashType>) returns (hashes: seq<string>)
    ensures hashes == HashIDs(hashTypes)
  {
    hashes := [];
    var h := 0;
    while h < |hashTypes|
      invariant h <= |hashTypes|
      invariant hashes == HashIDs(hashTypes[..h])
    {
      assert hashTypes[..h + 1][..h] == hashTypes[..h];
      hashes := hashes + [hashTypes[h].id];
      h := h + 1;
    }
    assert hashTypes[..h] == hashTypes;
  }

  /** The product loop of GetOptions: an option pair per offered product. */
  method CollectOptions(products: seq<DigicertProduct>, activeOrganizations: seq<int>)
    returns (productOptions: seq<ProductOption>, importOptions: seq<ImportOption>)
    ensures productOptions == ProductOptions(Offered(products), activeOrganizations)
    ensures importOptions == ImportOptions(Offered(products))
  {
    productOptions, importOptions := [], [];
    ghost var offered := [];
    var k := 0;
    while k < |products|
      invariant k <= |products|
      invariant offered == Offered(products[..k])
      invariant productOptions == ProductOptions(offered, activeOrganizations)
      invariant importOptions == ImportOptions(offered)
    {
      var product := products[k];
      OfferedStep(products, k);
      if product.certificateType == SslCertificate || product.certificateType == CodeSigningCertificate {
        OptionsSnoc(offered, product, activeOrganizations);
        var productType := ProductTypeSsl;
        if product.certificateType == CodeSigningCertificate {
          productType := ProductTypeCodeSign;
        }
        var hashes := CollectHashes(product.hashes.allowedHashTypes);
        productOptions := productOptions + [ProductOption(product.name, [productType],
          ProductDetails(hashes, product.hashes.defaultHashType, product.nameID, activeOrganizations))];
        importOptions := importOptions + [ImportOption(product.name,
          product.certificateType + " certificates will be available for import", ImportSettings(product.nameID))];
        offered := offered + [product];
      }
      k := k + 1;
    }
    assert products[..k] == products;
  }

  // ValidateProduct

  /** The index of the first option with the given name, if any. */
  function FirstNamed(options: seq<ProductOption>, name: string): (k: Option<nat>)
    ensures k.None? <==> forall i :: 0 <= i < |options| ==> options[i].name != name
    ensures k.Some? ==> k.value < |options| && options[k.value].name == name
                        && forall i :: 0 <= i < k.value ==> options[i].name != name
  {
    if options == [] then None
    else if options[0].name == name then Some(0)
    else match FirstNamed(options[1..], name)
      case None => None
      case Some(k) => Some(k + 1)
  }

  /** The errors for a product checked against the options: an unknown name,
    * or, against the first option of that name, an unsupported hash
    * algorithm and then an organization that is not active. */
  function ProductErrors(options: seq<ProductOption>, name: string, product: Product): (errors: seq<ProductError>)
    ensures |errors| <= 2
    ensures FirstNamed(options, name).None? <==> errors == [ProductError("name", name)]
    ensures FirstNamed(options, name).Some? ==>
      var details := options[FirstNamed(options, name).value].details;
      var hashMissing := product.hashAlgorithm !in details.hashes;
      var orgMissing := product.organizationID !in details.organizations;
      && (ProductError("hashAlgorithm", product.hashAlgorithm) in errors <==> hashMissing)
      && (ProductError("organizationId", Itoa(product.organizationID)) in errors <==> orgMissing)
      && |errors| == (if hashMissing then 1 else 0) + (if orgMissing then 1 else 0)
      && (hashMissing ==> errors[0] == ProductError("hashAlgorithm", product.hashAlgorithm))
  {
    match FirstNamed(options, name)
    case None => [ProductError("name", name)]
    case Some(k) =>
      var details := options[k].details;
      var errors :=
        (if product.hashAlgorithm in details.hashes then [] else [ProductError("hashAlgorithm", product.hashAlgorithm)])
        + (if product.organizationID in details.organizations then [] else [ProductError("organizationId", Itoa(product.organizationID))]);
      assert errors != [] ==> errors[0].attributeName != "name" by {
        assert |"name"| != |"hashAlgorithm"| && |"name"| != |"organizationId"|;
      }
      errors
  }

  /** The errors against the first option of the name, spelled out. */
  lemma ProductErrorsAtFirst(options: seq<ProductOption>, name: string, product: Product, k: nat)
    requires k < |options| && options[k].name == name && forall i :: 0 <= i < k ==> options[i].name != name
    ensures FirstNamed(options, name) == Some(k)
    ensures ProductErrors(options, name, product) ==
      (if product.hashAlgorithm in options[k].details.hashes then [] else [ProductError("hashAlgorithm", product.hashAlgorithm)])
      + (if product.organizationID in options[k].details.organizations then [] else [ProductError("organizationId", Itoa(product.organizationID))])
  {
  }

  /** A product passes exactly when an option of its name exists and the first
    * such option supports its hash algorithm and lists its organization. */
  lemma ProductErrorsEmptyIff(options: seq<ProductOption>, name: string, product: Product)
    ensures ProductErrors(options, name, product) == [] <==>
      (exists k :: 0 <= k < |options| && options[k].name == name
         && (forall i :: 0 <= i < k ==> options[i].name != name)
         && product.hashAlgorithm in options[k].details.hashes
         && product.organizationID in options[k].details.organizations)
  {
    var first := FirstNamed(options, name);
    if first.Some? {
      var k := first.value;
      forall k' | 0 <= k' < |options| && options[k'].name == name && (forall i :: 0 <= i < k' ==> options[i].name != name)
        ensures k' == k
      {
      }
    }
  }

  /** The options of a successful GetOptions give an organization error
    * exactly when the product's organization is not an active organization. */
  lemma OrganizationErrorIffInactive(connection: Connection, ca: CaServer, dec: Decoders, name: string, product: Product)
    requires OfferedOptions(connection, ca, dec).Success?
    requires FirstNamed(OfferedOptions(connection, ca, dec).value.0, name).Some?
    ensures var orgs := OrganizationsLookup(connection, ca, dec).value.organizations;
      (ProductError("organizationId", Itoa(product.organizationID)) in ProductErrors(OfferedOptions(connection, ca, dec).value.0, name, product))
        <==> !(exists i :: 0 <= i < |orgs| && orgs[i].isActive && orgs[i].id == product.organizationID)
  {
    var orgs := OrganizationsLookup(connection, ca, dec).value.organizations;
    ActiveOrganizationsMembership(orgs, product.organizationID);
  }

  /** The searches of ValidateProduct, stopping at the first match. */
  method Contains<T(==)>(s: seq<T>, x: T) returns (found: bool)
    ensures found <==> x in s
  {
    found := false;
    var i := 0;
    while i < |s|
      invariant i <= |s|
      invariant x !in s[..i]
    {
      if s[i] == x {
        found := true;
        break;
      }
      assert s[..i + 1] == s[..i] + [s[i]];
      i := i + 1;
    }
    if !found {
      assert s[..i] == s;
    }
  }

  /** The option loop of ValidateProduct: the first option of the name is
    * searched for the hash algorithm and the organization. */
  method CheckProduct(options: seq<ProductOption>, name: string, product: Product) returns (errors: seq<ProductError>)
    ensures errors == ProductErrors(options, name, product)
  {
    errors := [];
    var exist := false;
    var k := 0;
    while k < |options|
      invariant k <= |options|
      invariant !exist ==> errors == [] && forall i :: 0 <= i < k ==> options[i].name != name
      invariant exist ==> errors == ProductErrors(options, name, product)
      decreases if exist then 0 else |options| - k
    {
      var option := options[k];
      if option.name == name {
        ProductErrorsAtFirst(options, name, product, k);
        exist := true;
        var hashExist := Contains(option.details.hashes, product.hashAlgorithm);
        var orgExist := Contains(option.details.organizations, product.organizationID);
        if !hashExist {
          errors := errors + [ProductError("hashAlgorithm", product.hashAlgorithm)];
        }
        if !orgExist {
          errors := errors + [ProductError("organizationId", Itoa(product.organizationID))];
        }
        break;
      }
      k := k + 1;
    }
    if !exist {
      errors := errors + [ProductError("name", name)];
    }
  }

  /** ValidateProduct: GetOptions, then the option loop. */
  method ValidateProduct(connection: Connection, name: string, product: Product, ca: CaServer, dec: Decoders)
    returns (errors: seq<ProductError>, err: Option<string>)
    ensures var r := OfferedOptions(connection, ca, dec);
      && (err.None? <==> r.Success?)
      && (r.Failure? ==> err == Some(r.error) && errors == [])
      && (r.Success? ==> errors == ProductErrors(r.value.0, name, product))
  {
    var options, _, e := GetOptions(connection, ca, dec);
    if e.Some? {
      return [], e;
    }
    errors := CheckProduct(options, name, product);
    err := None;
  }
}
