/**
 * The normalization of the configured Solr base URL: the URL is made to end
 * with '/', and "solr/" is appended when the path "/solr/" does not occur in it.
 */
module SolrUrl {

  /** `s` ends with `t`. */
  predicate EndsWith(s: string, t: string)
  {
    |t| <= |s| && s[|s| - |t|..] == t
  }

  /** `s` contains `t` at some position. */
  predicate Contains(s: string, t: string)
    decreases |s|
  {
    |t| <= |s| && (s[..|t|] == t || Contains(s[1..], t))
  }

  /** The URL with a '/' added when it does not already end with one. */
  function EnsureTrailingSlash(url: string): (r: string)
    ensures EndsWith(r, "/")
    ensures r == url || r == url + "/"
    ensures r == url <==> EndsWith(url, "/")
  {
    if !EndsWith(url, "/") then url + "/" else url
  }

  /** The base URL handed to the Solr client. */
  function NormalizeUrl(url: string): (r: string)
    ensures EndsWith(r, "/")
    ensures |url| <= |r| && r[..|url|] == url
  {
    var slashed := EnsureTrailingSlash(url);
    if !EndsWith(slashed, "/solr/") && !Contains(slashed, "/solr/") then
      if EndsWith(slashed, "/") then slashed + "solr/"
      else assert false; slashed + "/solr/"
    else slashed
  }

  /** `t` occurs in `s` at position `i`. */
  predicate OccursAt(s: string, t: string, i: nat)
  {
    i + |t| <= |s| && s[i..i + |t|] == t
  }

  lemma {:induction false} ContainsAt(s: string, t: string, i: nat)
    requires OccursAt(s, t, i)
    ensures Contains(s, t)
    decreases i
  {
    if i > 0 {
      assert s[1..][i - 1..i - 1 + |t|] == s[i..i + |t|];
      ContainsAt(s[1..], t, i - 1);
    } else {
      assert s[..|t|] == s[0..0 + |t|];
    }
  }

  lemma {:induction false} ContainsWitness(s: string, t: string) returns (i: nat)
    requires Contains(s, t)
    ensures OccursAt(s, t, i)
    decreases |s|
  {
    if s[..|t|] == t {
      i := 0;
    } else {
      var j := ContainsWitness(s[1..], t);
      assert s[1..][j..j + |t|] == s[j + 1..j + 1 + |t|];
      i := j + 1;
    }
  }

  /** `Contains` holds exactly when the needle occurs at some position. */
  lemma ContainsIff(s: string, t: string)
    ensures Contains(s, t) <==> exists i: nat :: OccursAt(s, t, i)
  {
    if Contains(s, t) {
      var i := ContainsWitness(s, t);
    }
    if exists i: nat :: OccursAt(s, t, i) {
      var i: nat :| OccursAt(s, t, i);
      ContainsAt(s, t, i);
    }
  }

  /** A string lacking one of the needle's characters does not contain the needle. */
  lemma MissingCharacter(s: string, t: string, j: nat)
    requires j < |t| && forall i :: 0 <= i < |s| ==> s[i] != t[j]
    ensures !Contains(s, t)
  {
    if Contains(s, t) {
      var i := ContainsWitness(s, t);
    }
  }

  /** A suffix occurs in the string. */
  lemma EndsWithContains(s: string, t: string)
    ensures EndsWith(s, t) ==> Contains(s, t)
  {
    if EndsWith(s, t) {
      ContainsAt(s, t, |s| - |t|);
    }
  }

  /** An occurrence survives appending. */
  lemma ContainsExtend(s: string, t: string, u: string)
    ensures Contains(s, t) ==> Contains(s + u, t)
  {
    if Contains(s, t) {
      var i := ContainsWitness(s, t);
      assert (s + u)[i..i + |t|] == s[i..i + |t|];
      ContainsAt(s + u, t, i);
    }
  }

  /**
   * The normalized URL ends with '/', contains "/solr/", and is the input
   * followed by one of "", "/", "solr/" or "/solr/".
   */
  lemma NormalizeShape(url: string)
    ensures EndsWith(NormalizeUrl(url), "/")
    ensures Contains(NormalizeUrl(url), "/solr/")
    ensures |url| <= |NormalizeUrl(url)| && NormalizeUrl(url)[..|url|] == url
    ensures NormalizeUrl(url)[|url|..] in {"", "/", "solr/", "/solr/"}
  {
    var slashed := EnsureTrailingSlash(url);
    EndsWithContains(slashed, "/solr/");
    if Contains(slashed, "/solr/") {
      KeptShape(url, slashed);
    } else {
      assert NormalizeUrl(url) == slashed + "solr/";
      AppendedShape(url, slashed);
    }
  }

  lemma KeptShape(url: string, slashed: string)
    requires slashed == EnsureTrailingSlash(url) && Contains(slashed, "/solr/")
    ensures NormalizeUrl(url) == slashed
    ensures EndsWith(slashed, "/") && slashed[..|url|] == url && slashed[|url|..] in {"", "/"}
  {
    if slashed == url {
      assert slashed[|url|..] == "";
    } else {
      assert slashed[|url|..] == "/";
    }
  }

  lemma AppendedShape(url: string, slashed: string)
    requires slashed == EnsureTrailingSlash(url)
    ensures var r := slashed + "solr/";
      EndsWith(r, "/") && Contains(r, "/solr/") && r[..|url|] == url && r[|url|..] in {"solr/", "/solr/"}
  {
    AppendedSuffix(slashed);
    EndsWithContains(slashed + "solr/", "/solr/");
    AppendedPrefix(url, slashed);
  }

  lemma AppendedSuffix(slashed: string)
    requires EndsWith(slashed, "/")
    ensures EndsWith(slashed + "solr/", "/solr/") && EndsWith(slashed + "solr/", "/")
  {
    var r := slashed + "solr/";
    assert r[|r| - 6..] == slashed[|slashed| - 1..] + "solr/";
  }

  lemma AppendedPrefix(url: string, slashed: string)
    requires slashed == url || slashed == url + "/"
    ensures var r := slashed + "solr/";
      r[..|url|] == url && r[|url|..] in {"solr/", "/solr/"}
  {
    var r := slashed + "solr/";
    if slashed == url {
      assert r[|url|..] == "solr/";
    } else {
      assert r == url + "/solr/";
      assert r[|url|..] == "/solr/";
    }
  }

  /** A URL that ends with '/' and contains "/solr/" is left as it is, and only such a URL. */
  lemma NormalizeUnchanged(url: string)
    ensures NormalizeUrl(url) == url <==> EndsWith(url, "/") && Contains(url, "/solr/")
  {
    NormalizeShape(url);
  }

  /** Normalizing twice gives what normalizing once gives. */
  lemma NormalizeIdempotent(url: string)
    ensures NormalizeUrl(NormalizeUrl(url)) == NormalizeUrl(url)
  {
    NormalizeShape(url);
    NormalizeUnchanged(NormalizeUrl(url));
  }

  /** A "/solr/" anywhere in the path, such as a core URL, keeps the path and only adds the slash. */
  lemma NormalizeKeepsSolrPath(url: string)
    requires Contains(url, "/solr/")
    ensures NormalizeUrl(url) == EnsureTrailingSlash(url)
  {
    ContainsExtend(url, "/solr/", "/");
  }

  /** A URL without "/solr/" gets the Solr path appended after a single '/'. */
  lemma NormalizeAddsSolrPath(url: string)
    requires !Contains(url + "/", "/solr/")
    ensures EndsWith(url, "/") ==> NormalizeUrl(url) == url + "solr/"
    ensures !EndsWith(url, "/") ==> NormalizeUrl(url) == url + "/solr/"
  {
    ContainsExtend(url, "/solr/", "/");
    EndsWithContains(url, "/solr/");
    EndsWithContains(url + "/", "/solr/");
  }

  /** The host-only forms of the documented URL list both normalize to the host followed by "/solr/". */
  lemma DocumentedHostForms(host: string)
    requires host == "http://localhost:8983"
    ensures NormalizeUrl(host) == host + "/solr/"
    ensures NormalizeUrl(host + "/") == host + "/solr/"
  {
    var slashed := host + "/";
    assert forall i :: 0 <= i < |slashed| ==> slashed[i] != 'r';
    MissingCharacter(slashed, "/solr/", 4);
    NormalizeAddsSolrPath(host);
    assert slashed + "/" == host + "//";
    MissingCharacter(slashed + "/", "/solr/", 4);
    NormalizeAddsSolrPath(slashed);
    assert slashed + "solr/" == host + "/solr/";
  }

  /** The forms of the documented URL list that already name the Solr path both normalize to it. */
  lemma DocumentedSolrForms(host: string)
    requires host == "http://localhost:8983"
    ensures NormalizeUrl(host + "/solr") == host + "/solr/"
    ensures NormalizeUrl(host + "/solr/") == host + "/solr/"
  {
    var u := host + "/solr/";
    assert EndsWith(u, "/solr/");
    EndsWithContains(u, "/solr/");
    NormalizeUnchanged(u);
    var v := host + "/solr";
    assert v + "/" == u;
    assert v[|v| - 1] == 'r';
    assert EnsureTrailingSlash(v) == u;
    KeptShape(v, u);
  }
}
