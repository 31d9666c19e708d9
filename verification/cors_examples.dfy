/** The CORS fixtures of the server's example configuration, checked
    against the policy evaluator. */
module CorsExamples {
  import opened Text
  import opened Cors

  /** The two directions of `HttpsWildcardEntry`, stated over an abstract
      domain so that the fixtures below need only literal facts. */
  lemma HttpsMatch(a: string, o: string, domain: string)
    requires HasPrefix(a, "https://*.") && a[10..] == domain
    requires HasPrefix(ToLower(o), "https://") && HasSuffix(ToLower(o), "." + ToLower(domain))
    ensures EntryAdmits(a, o)
  {
    HttpsWildcardEntry(a, o);
  }

  lemma HttpsMismatch(a: string, o: string, domain: string)
    requires HasPrefix(a, "https://*.") && a[10..] == domain
    requires !HasPrefix(ToLower(o), "https://") || !HasSuffix(ToLower(o), "." + ToLower(domain))
    ensures !EntryAdmits(a, o)
  {
    HttpsWildcardEntry(a, o);
  }

  /** An https origin built from lower-case parts is its own lower-case form. */
  lemma LowerOrigin(dom: string, sub: string)
    requires ToLower(dom) == dom && ToLower(sub) == sub
    ensures ToLower("https://" + sub + "." + dom) == "https://" + sub + "." + dom
  {
    var scheme := "https://";
    ToLowerOfLower(scheme);
    ToLowerOfLower(".");
    ToLowerAppend(scheme, sub);
    ToLowerAppend(scheme + sub, ".");
    ToLowerAppend(scheme + sub + ".", dom);
  }

  /** The shape of the wildcard entry for a domain. */
  lemma EntryShape(dom: string)
    ensures HasPrefix("https://*." + dom, "https://*.") && ("https://*." + dom)[10..] == dom
  {
    assert ("https://*." + dom)[..10] == "https://*.";
  }

  /** The shape of an https origin for a subdomain. */
  lemma OriginShape(dom: string, sub: string)
    ensures HasPrefix("https://" + sub + "." + dom, "https://")
    ensures HasSuffix("https://" + sub + "." + dom, "." + dom)
  {
    var o := "https://" + sub + "." + dom;
    assert o[..8] == "https://";
    assert o == ("https://" + sub) + ("." + dom);
  }

  /** Any lower-case subdomain over https matches the wildcard entry for a
      lower-case domain. */
  lemma SubdomainMatches(dom: string, sub: string)
    requires ToLower(dom) == dom && ToLower(sub) == sub
    ensures EntryAdmits("https://*." + dom, "https://" + sub + "." + dom)
  {
    LowerOrigin(dom, sub);
    EntryShape(dom);
    OriginShape(dom, sub);
    HttpsMatch("https://*." + dom, "https://" + sub + "." + dom, dom);
  }

  /** A subdomain over https matches a wildcard entry for the domain. */
  lemma ExampleSubdomainMatches(a: string, o: string)
    requires a == "https://*.example.com" && o == "https://a.example.com"
    ensures EntryAdmits(a, o)
  {
    var d := "example.com";
    ToLowerOfLower(d);
    ToLowerOfLower("a");
    assert a == "https://*." + d;
    assert o == "https://" + "a" + "." + d;
    SubdomainMatches(d, "a");
  }

  /** The same subdomain over plain http does not match. */
  lemma ExampleWrongSchemeFails(a: string, o: string)
    requires a == "https://*.example.com" && o == "http://a.example.com"
    ensures !EntryAdmits(a, o)
  {
    var d := "example.com";
    assert a == "https://*." + d;
    assert ToLower(o)[4] == ':';
    assert !HasPrefix(ToLower(o), "https://") by {
      assert "https://"[4] == 's';
    }
    HttpsMismatch(a, o, d);
  }

  /** The bare domain has no subdomain and does not match. */
  lemma ExampleBareDomainFails(a: string, o: string)
    requires a == "https://*.example.com" && o == "https://example.com"
    ensures !EntryAdmits(a, o)
  {
    var d := "example.com";
    assert a == "https://*." + d;
    assert |ToLower(o)| == 19 && ToLower(o)[7] == '/';
    assert !HasSuffix(ToLower(o), "." + ToLower(d)) by {
      assert |"." + ToLower(d)| == 12 && ("." + ToLower(d))[0] == '.';
    }
    HttpsMismatch(a, o, d);
  }

  /** The allow-list of the example configuration, cut down to its wildcard
      entry: `https://a.example.com` is allowed, `http://a.example.com` and
      `https://example.com` are not. */
  lemma WildcardExample(a: string, sub: string, http: string, bare: string)
    requires a == "https://*.example.com"
    requires sub == "https://a.example.com" && http == "http://a.example.com" && bare == "https://example.com"
    ensures OriginAllowed(sub, [a])
    ensures !OriginAllowed(http, [a])
    ensures !OriginAllowed(bare, [a])
  {
    ExampleSubdomainMatches(a, sub);
    ExampleWrongSchemeFails(a, http);
    ExampleBareDomainFails(a, bare);
    SoleEntry(a, sub);
    SoleEntry(a, http);
    SoleEntry(a, bare);
  }
}
