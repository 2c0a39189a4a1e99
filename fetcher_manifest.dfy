/**
 * The pure part of fetcher/manifest_fetcher.go: choosing a staged product's
 * GUID from the already-decoded product list, and the request URLs built
 * from the environment's base URL.
 */
module Fetcher {

  import opened Options
  import Search

  /** One entry of the staged-products listing. */
  datatype Product = Product(productType: string, guid: string)

  /** The Ops Manager installation to talk to. */
  datatype Environment = Environment(url: string, username: string, password: string)

  /** The error returned when no usable product GUID is found. */
  datatype FetchError = ProductNotFound(name: string)
  {
    function Message(): (msg: string)
    {
      "could not find a product named " + name
    }
  }

  /** The product `p` is of the requested type. */
  predicate IsOfType(p: Product, name: string)
  {
    p.productType == name
  }

  /**
   * The GUID the product listing yields for `name`: that of the first product
   * of type `name`, or `""` when there is none; an empty GUID is an error.
   */
  function ProductGUID(ps: seq<Product>, name: string): (r: (string, Option<FetchError>))
    ensures r.1.None? ==> r.0 != "" && exists i :: 0 <= i < |ps| && IsOfType(ps[i], name) && ps[i].guid == r.0
    ensures r.1.Some? ==> r == ("", Some(ProductNotFound(name)))
  {
    var guid :=
      match Search.FirstIndex(ps, (p: Product) => IsOfType(p, name))
      case Some(i) => ps[i].guid
      case None => "";
    if guid == "" then ("", Some(ProductNotFound(name))) else (guid, None)
  }

  /**
   * The product-matching loop of `GetProductGUID`: take the GUID of the first
   * product whose type is `name` and stop; reject an empty result.
   */
  method SelectProductGUID(ps: seq<Product>, name: string) returns (guid: string, err: Option<FetchError>)
    ensures (guid, err) == ProductGUID(ps, name)
    ensures err.None? ==> guid != ""
    ensures err.Some? ==> guid == "" && err == Some(ProductNotFound(name))
  {
    var productGUID := "";
    var i := 0;
    while i < |ps|
      invariant 0 <= i <= |ps|
      invariant productGUID == ""
      invariant forall k :: 0 <= k < i ==> !IsOfType(ps[k], name)
    {
      if ps[i].productType == name {
        productGUID := ps[i].guid;
        break;
      }
      i := i + 1;
    }
    assert productGUID == match Search.FirstIndex(ps, (p: Product) => IsOfType(p, name))
      case Some(k) => ps[k].guid
      case None => "";
    if productGUID == "" {
      return "", Some(ProductNotFound(name));
    }
    return productGUID, None;
  }

  /** The first product of type `name` decides the outcome on its own. */
  lemma ProductGUIDFirstMatch(ps: seq<Product>, name: string, i: nat)
    requires i < |ps| && IsOfType(ps[i], name)
    requires forall k :: 0 <= k < i ==> !IsOfType(ps[k], name)
    ensures ProductGUID(ps, name) ==
      if ps[i].guid == "" then ("", Some(ProductNotFound(name))) else (ps[i].guid, None)
  {
  }

  /**
   * Products after the first match are never consulted, even those of the
   * same type: replacing them changes nothing. In particular an empty GUID
   * on the first match is not rescued by a later one.
   */
  lemma ProductGUIDIgnoresLater(ps: seq<Product>, name: string, i: nat, later: seq<Product>)
    requires i < |ps| && IsOfType(ps[i], name)
    requires forall k :: 0 <= k < i ==> !IsOfType(ps[k], name)
    ensures ProductGUID(ps[..i + 1] + later, name) == ProductGUID(ps, name)
  {
    var isType := (p: Product) => IsOfType(p, name);
    Search.FirstIndexIs(ps, isType, i);
    Search.FirstIndexIgnoresSuffix(ps, isType, i, later);
    assert (ps[..i + 1] + later)[i] == ps[i];
  }

  /** Without a product of type `name` the result names the product. */
  lemma ProductGUIDNoMatch(ps: seq<Product>, name: string)
    requires forall k :: 0 <= k < |ps| ==> !IsOfType(ps[k], name)
    ensures ProductGUID(ps, name) == ("", Some(ProductNotFound(name)))
  {
  }

  /** The not-found error text identifies the product it was raised for. */
  lemma NotFoundMessageNamesProduct(n1: string, n2: string)
    ensures ProductNotFound(n1).Message() == ProductNotFound(n2).Message() <==> n1 == n2
  {
    var prefix := "could not find a product named ";
    if ProductNotFound(n1).Message() == ProductNotFound(n2).Message() {
      assert n1 == (prefix + n1)[|prefix|..];
      assert n2 == (prefix + n2)[|prefix|..];
    }
  }

  /**
   * A successful selection is a non-empty GUID that belongs to the first
   * product of type `name`; a failed one is `""` together with the error.
   */
  lemma ProductGUIDSuccess(ps: seq<Product>, name: string)
    ensures ProductGUID(ps, name).1.None? ==>
      ProductGUID(ps, name).0 != "" &&
      exists i :: 0 <= i < |ps| && IsOfType(ps[i], name) && ps[i].guid == ProductGUID(ps, name).0 &&
        forall k :: 0 <= k < i ==> !IsOfType(ps[k], name)
    ensures ProductGUID(ps, name).1.Some? ==> ProductGUID(ps, name) == ("", Some(ProductNotFound(name)))
  {
  }

  // ---------------------------------------------------------------------
  // Request URLs
  // ---------------------------------------------------------------------

  const StagedProductsPath: string := "/api/v0/staged/products"

  /** The staged-products listing requested by `GetProductGUID`. */
  function ProductsURL(e: Environment): (u: string)
  {
    e.url + StagedProductsPath
  }

  /** The manifest of one staged product, requested by `makeRequest`. */
  function ManifestURL(e: Environment, guid: string): (u: string)
    ensures ProductsURL(e) + "/" <= u
  {
    e.url + StagedProductsPath + "/" + guid + "/manifest"
  }

  /** The UAA host the OAuth client authenticates against. */
  function UAAHost(e: Environment): (u: string)
  {
    e.url + "/uaa"
  }

  /**
   * The three request URLs are pairwise distinct for every environment and
   * GUID, and each of them determines the environment's base URL.
   */
  lemma RequestURLsDistinct(e: Environment, guid: string)
    ensures UAAHost(e) != ProductsURL(e)
    ensures ManifestURL(e, guid) != ProductsURL(e)
    ensures ManifestURL(e, guid) != UAAHost(e)
  {
  }

  /** Distinct base URLs give distinct listing, manifest and UAA URLs. */
  lemma RequestURLsDetermineBase(e1: Environment, e2: Environment, guid: string)
    ensures ProductsURL(e1) == ProductsURL(e2) <==> e1.url == e2.url
    ensures UAAHost(e1) == UAAHost(e2) <==> e1.url == e2.url
    ensures ManifestURL(e1, guid) == ManifestURL(e2, guid) <==> e1.url == e2.url
  {
    if ProductsURL(e1) == ProductsURL(e2) {
      assert e1.url == ProductsURL(e1)[..|e1.url|];
      assert e2.url == ProductsURL(e2)[..|e2.url|];
    }
    if UAAHost(e1) == UAAHost(e2) {
      assert e1.url == UAAHost(e1)[..|e1.url|];
      assert e2.url == UAAHost(e2)[..|e2.url|];
    }
    if ManifestURL(e1, guid) == ManifestURL(e2, guid) {
      assert e1.url == ManifestURL(e1, guid)[..|e1.url|];
      assert e2.url == ManifestURL(e2, guid)[..|e2.url|];
    }
  }

  /**
   * The manifest URL identifies its product: distinct GUIDs give distinct
   * URLs, and the GUID can be read back from between the listing path and
   * the "/manifest" suffix.
   */
  lemma ManifestURLInjective(e: Environment, g1: string, g2: string)
    ensures ManifestURL(e, g1) == ManifestURL(e, g2) <==> g1 == g2
    ensures var u := ManifestURL(e, g1); var n := |ProductsURL(e)| + 1;
      u[n..|u| - |"/manifest"|] == g1
  {
    var u := ManifestURL(e, g1);
    var n := |ProductsURL(e)| + 1;
    assert u == (ProductsURL(e) + "/") + g1 + "/manifest";
    assert u[n..|u| - |"/manifest"|] == g1;
    if ManifestURL(e, g1) == ManifestURL(e, g2) {
      var v := ManifestURL(e, g2);
      assert v == (ProductsURL(e) + "/") + g2 + "/manifest";
      assert v[n..|v| - |"/manifest"|] == g2;
    }
  }
}
