/**
 * Field-name sanitizer of the ingestion pipeline: turns an arbitrary JSON key
 * (or a joined key path) into a name the schemaless search engine accepts.
 * The transform runs four stages in order: lower-case, replace every character
 * outside [a-z0-9_] by '_', collapse runs of '_' into one, strip one leading
 * and one trailing '_'.
 */
module FieldNames {

  /** Characters allowed in a sanitized field name. */
  predicate IsFieldChar(c: char) {
    ('a' <= c <= 'z') || ('0' <= c <= '9') || c == '_'
  }

  /** Letters and digits: the characters that carry a name's content. */
  predicate IsWordChar(c: char) {
    IsFieldChar(c) && c != '_'
  }

  /**
   * A sanitized field name: only [a-z0-9_], no doubled underscore, and no
   * underscore at either end.
   */
  predicate IsSanitized(s: string) {
    && (forall i :: 0 <= i < |s| ==> IsFieldChar(s[i]))
    && (forall i :: 0 <= i < |s| - 1 ==> !(s[i] == '_' && s[i + 1] == '_'))
    && (|s| > 0 ==> s[0] != '_' && s[|s| - 1] != '_')
  }

  function LowerChar(c: char): (r: char)
    ensures 'A' <= c <= 'Z' ==> 'a' <= r <= 'z' && r as int - c as int == 32
    ensures !('A' <= c <= 'Z') ==> r == c
  {
    if 'A' <= c <= 'Z' then (c as int + 32) as char else c
  }

  /** Stage 1: lower-case every letter. */
  function Lower(s: string): (r: string)
    ensures |r| == |s|
  {
    if s == [] then [] else [LowerChar(s[0])] + Lower(s[1..])
  }

  /** Stage 2: every character outside [a-z0-9_] becomes '_'. */
  function ReplaceInvalid(s: string): (r: string)
    ensures |r| == |s|
  {
    if s == [] then [] else [if IsFieldChar(s[0]) then s[0] else '_'] + ReplaceInvalid(s[1..])
  }

  /** Stage 3: every run of two or more '_' becomes a single '_'. */
  function Collapse(s: string): (r: string)
    ensures |r| <= |s|
  {
    if |s| <= 1 then s
    else if s[0] == '_' && s[1] == '_' then Collapse(s[1..])
    else [s[0]] + Collapse(s[1..])
  }

  /** Stage 4: drop one leading and one trailing '_'. */
  function Strip(s: string): (r: string)
    ensures |s| - 2 <= |r| <= |s|
    ensures |s| > 0 && s[0] != '_' && s[|s| - 1] != '_' ==> r == s
  {
    var t := if |s| > 0 && s[0] == '_' then s[1..] else s;
    if |t| > 0 && t[|t| - 1] == '_' then t[..|t| - 1] else t
  }

  /**
   * A character that stages 1 and 2 turn into '_': an underscore, or anything
   * that is neither a letter nor a digit once lower-cased.
   */
  predicate IsSeparator(c: char) {
    !IsWordChar(LowerChar(c))
  }

  /** Stages 1 and 2: a pointwise rewrite of each character. */
  function Prepare(s: string): (r: string)
    ensures |r| == |s|
  {
    ReplaceInvalid(Lower(s))
  }

  lemma {:induction false} LowerAt(s: string)
    ensures forall i :: 0 <= i < |s| ==> Lower(s)[i] == LowerChar(s[i])
  {
    if s != [] { LowerAt(s[1..]); }
  }

  lemma {:induction false} ReplaceInvalidAt(s: string)
    ensures forall i :: 0 <= i < |s| ==> ReplaceInvalid(s)[i] == if IsFieldChar(s[i]) then s[i] else '_'
  {
    if s != [] { ReplaceInvalidAt(s[1..]); }
  }

  /** Stages 1 and 2 rewrite each character on its own. */
  lemma PrepareAt(s: string)
    ensures forall i :: 0 <= i < |s| ==> Prepare(s)[i] == if IsSeparator(s[i]) then '_' else LowerChar(s[i])
  {
    LowerAt(s);
    ReplaceInvalidAt(Lower(s));
  }

  /** The sanitizer: the four stages composed. */
  function Sanitize(s: string): (r: string)
    ensures |r| <= |s|
  {
    Strip(Collapse(Prepare(s)))
  }

  function Underscores(n: nat): (r: string)
    ensures |r| == n
  {
    seq(n, _ => '_')
  }

  /** The letters and digits of a string, in order. */
  function Words(s: string): string
  {
    if s == [] then []
    else if IsWordChar(s[0]) then [s[0]] + Words(s[1..])
    else Words(s[1..])
  }

  /* ---------- stages 1 and 2 ---------- */

  lemma PrepareConcat(x: string, y: string)
    ensures Prepare(x + y) == Prepare(x) + Prepare(y)
  {
    PrepareAt(x + y);
    PrepareAt(x);
    PrepareAt(y);
    assert forall i :: 0 <= i < |x + y| ==> Prepare(x + y)[i] == (Prepare(x) + Prepare(y))[i];
  }

  /** Stages 1 and 2 leave a sanitized name alone. */
  lemma PrepareSanitized(s: string)
    requires IsSanitized(s)
    ensures Prepare(s) == s
  {
    PrepareAt(s);
    assert forall i :: 0 <= i < |s| ==> Prepare(s)[i] == s[i];
  }

  /** A run of separators becomes a run of underscores of the same length. */
  lemma PrepareSeparators(sep: string)
    requires forall i :: 0 <= i < |sep| ==> IsSeparator(sep[i])
    ensures Prepare(sep) == Underscores(|sep|)
  {
    PrepareAt(sep);
  }

  lemma {:induction false} WordsConcat(x: string, y: string)
    ensures Words(x + y) == Words(x) + Words(y)
  {
    if x == [] {
      assert x + y == y;
    } else {
      assert (x + y)[1..] == x[1..] + y;
      WordsConcat(x[1..], y);
    }
  }

  /** Stages 1 and 2 keep every letter and digit of the lower-cased input, in order. */
  lemma {:induction false} PrepareKeepsWords(s: string)
    ensures Words(Prepare(s)) == Words(Lower(s))
  {
    if s != [] {
      PrepareConcat([s[0]], s[1..]);
      assert s == [s[0]] + s[1..];
      assert Lower(s) == [LowerChar(s[0])] + Lower(s[1..]);
      assert (Lower(s))[1..] == Lower(s[1..]);
      PrepareKeepsWords(s[1..]);
    }
  }

  /* ---------- stage 3 ---------- */

  lemma {:induction false} CollapseEnds(s: string)
    ensures |Collapse(s)| <= |s|
    ensures |s| > 0 ==> |Collapse(s)| > 0 && Collapse(s)[0] == s[0]
    ensures |s| > 0 ==> Collapse(s)[|Collapse(s)| - 1] == s[|s| - 1]
    ensures forall c :: c in Collapse(s) ==> c in s
  {
    if |s| > 1 {
      CollapseEnds(s[1..]);
      assert forall c :: c in s[1..] ==> c in s;
    }
  }

  /** Stage 3 leaves no doubled underscore behind. */
  lemma {:induction false} CollapseNoDoubles(s: string)
    ensures forall i :: 0 <= i < |Collapse(s)| - 1 ==> !(Collapse(s)[i] == '_' && Collapse(s)[i + 1] == '_')
  {
    if |s| > 1 {
      CollapseNoDoubles(s[1..]);
      CollapseEnds(s[1..]);
    }
  }

  /** Stage 3 removes only underscores. */
  lemma {:induction false} CollapseKeepsWords(s: string)
    ensures Words(Collapse(s)) == Words(s)
  {
    if |s| > 1 {
      CollapseKeepsWords(s[1..]);
      if !(s[0] == '_' && s[1] == '_') {
        assert ([s[0]] + Collapse(s[1..]))[1..] == Collapse(s[1..]);
      }
    }
  }

  /** Stage 3 is the identity on strings without a doubled underscore. */
  lemma {:induction false} CollapseIdentity(s: string)
    requires forall i :: 0 <= i < |s| - 1 ==> !(s[i] == '_' && s[i + 1] == '_')
    ensures Collapse(s) == s
  {
    if |s| > 1 {
      CollapseIdentity(s[1..]);
      assert s == [s[0]] + s[1..];
    }
  }

  /** Collapsing splits at a boundary that is not itself a doubled underscore. */
  lemma {:induction false} CollapseConcat(x: string, z: string)
    requires x == [] || z == [] || !(x[|x| - 1] == '_' && z[0] == '_')
    ensures Collapse(x + z) == Collapse(x) + Collapse(z)
  {
    if x == [] {
      assert x + z == z;
    } else if z == [] {
      assert x + z == x;
    } else if |x| == 1 {
      assert (x + z)[1..] == z;
    } else {
      assert (x + z)[1..] == x[1..] + z;
      CollapseConcat(x[1..], z);
    }
  }

  lemma {:induction false} CollapseUnderscores(n: nat)
    requires n > 0
    ensures Collapse(Underscores(n)) == "_"
  {
    if n > 1 {
      assert Underscores(n)[1..] == Underscores(n - 1);
      CollapseUnderscores(n - 1);
    }
  }

  /* ---------- stage 4 ---------- */

  /** Stripping a string of field characters without doubled underscores sanitizes it. */
  lemma StripSanitizes(t: string)
    requires forall i :: 0 <= i < |t| ==> IsFieldChar(t[i])
    requires forall i :: 0 <= i < |t| - 1 ==> !(t[i] == '_' && t[i + 1] == '_')
    ensures IsSanitized(Strip(t))
  {
    var u := if |t| > 0 && t[0] == '_' then t[1..] else t;
    assert forall i :: 0 <= i < |u| - 1 ==> !(u[i] == '_' && u[i + 1] == '_');
    assert |u| > 0 ==> u[0] != '_';
    if |u| > 0 && u[|u| - 1] == '_' {
      var w := u[..|u| - 1];
      assert |w| > 0 ==> w[|w| - 1] == u[|u| - 2];
    }
  }

  lemma StripKeepsWords(t: string)
    ensures Words(Strip(t)) == Words(t)
  {
    var u := if |t| > 0 && t[0] == '_' then t[1..] else t;
    assert Words(u) == Words(t);
    if |u| > 0 && u[|u| - 1] == '_' {
      assert u == u[..|u| - 1] + "_";
      WordsConcat(u[..|u| - 1], "_");
    }
  }

  /* ---------- the sanitizer ---------- */

  /**
   * Every sanitized name consists of [a-z0-9_] only, with no doubled or
   * edge underscore, whatever the input.
   */
  lemma SanitizeIsSanitized(s: string)
    ensures IsSanitized(Sanitize(s))
  {
    var p := Prepare(s);
    PrepareAt(s);
    CollapseEnds(p);
    CollapseNoDoubles(p);
    assert forall c :: c in p ==> IsFieldChar(c);
    assert forall i :: 0 <= i < |Collapse(p)| ==> Collapse(p)[i] in Collapse(p);
    StripSanitizes(Collapse(p));
  }

  /** A name that is already sanitized comes back unchanged. */
  lemma SanitizeFixpoint(s: string)
    requires IsSanitized(s)
    ensures Sanitize(s) == s
  {
    PrepareSanitized(s);
    CollapseIdentity(s);
  }

  /** Sanitizing twice is sanitizing once. */
  lemma SanitizeIdempotent(s: string)
    ensures Sanitize(Sanitize(s)) == Sanitize(s)
  {
    SanitizeIsSanitized(s);
    SanitizeFixpoint(Sanitize(s));
  }

  /** The sanitizer keeps every letter and digit of the lower-cased input, in order. */
  lemma SanitizeKeepsWords(s: string)
    ensures Words(Sanitize(s)) == Words(Lower(s))
  {
    PrepareKeepsWords(s);
    CollapseKeepsWords(Prepare(s));
    StripKeepsWords(Collapse(Prepare(s)));
  }

  lemma {:induction false} NoWordsNoWordChar(s: string)
    requires Words(s) == []
    ensures forall i :: 0 <= i < |s| ==> !IsWordChar(s[i])
  {
    if s != [] {
      NoWordsNoWordChar(s[1..]);
    }
  }

  /** The sanitized name is empty exactly when the input has no letter or digit. */
  lemma SanitizeEmpty(s: string)
    ensures Sanitize(s) == [] <==> Words(Lower(s)) == []
  {
    SanitizeKeepsWords(s);
    SanitizeIsSanitized(s);
    var r := Sanitize(s);
    if Words(Lower(s)) == [] {
      NoWordsNoWordChar(r);
    }
  }

  /** When stages 1 and 2 already produce a sanitized name, stages 3 and 4 change nothing. */
  lemma SanitizeClean(s: string)
    requires IsSanitized(Prepare(s))
    ensures Sanitize(s) == Prepare(s)
  {
    CollapseIdentity(Prepare(s));
  }

  lemma SanitizedJoin(a: string, b: string)
    requires IsSanitized(a) && IsSanitized(b) && a != [] && b != []
    ensures IsSanitized(a + "_" + b)
  {
    var j := a + "_" + b;
    assert forall i :: 0 <= i < |a| ==> j[i] == a[i];
    assert forall i :: 0 <= i < |b| ==> j[|a| + 1 + i] == b[i];
  }

  /** Two sanitized names separated by any run of separators are joined by exactly one '_'. */
  lemma SanitizeSeparated(a: string, sep: string, b: string)
    requires IsSanitized(a) && IsSanitized(b) && a != [] && b != [] && sep != []
    requires forall i :: 0 <= i < |sep| ==> IsSeparator(sep[i])
    ensures Sanitize(a + sep + b) == a + "_" + b
  {
    PrepareConcat(a + sep, b);
    PrepareConcat(a, sep);
    PrepareSanitized(a);
    PrepareSanitized(b);
    PrepareSeparators(sep);
    var u := Underscores(|sep|);
    assert Prepare(a + sep + b) == a + u + b;
    CollapseConcat(a + u, b);
    CollapseConcat(a, u);
    CollapseUnderscores(|sep|);
    CollapseIdentity(a);
    CollapseIdentity(b);
    SanitizedJoin(a, b);
  }

  /** Stripping at most one underscore a side gives back the sanitized name inside. */
  lemma StripAround(a: string, left: bool, right: bool)
    requires IsSanitized(a) && a != []
    ensures Strip((if left then "_" else "") + a + (if right then "_" else "")) == a
  {
    var cl := if left then "_" else "";
    var cr := if right then "_" else "";
    var t := cl + a + cr;
    var u := a + cr;
    assert t[0] == '_' <==> left;
    assert left ==> t[1..] == u;
    assert !left ==> t == u;
    assert u[|u| - 1] == '_' <==> right;
    assert right ==> u[..|u| - 1] == a;
  }

  /** A sanitized name between two runs of underscores collapses to at most one underscore a side. */
  lemma CollapseAround(m: nat, a: string, n: nat)
    requires IsSanitized(a) && a != []
    ensures Collapse(Underscores(m) + a + Underscores(n))
         == (if m > 0 then "_" else "") + a + (if n > 0 then "_" else "")
  {
    var ul, ur := Underscores(m), Underscores(n);
    CollapseConcat(ul + a, ur);
    CollapseConcat(ul, a);
    CollapseIdentity(a);
    if m > 0 { CollapseUnderscores(m); } else { assert ul == []; }
    if n > 0 { CollapseUnderscores(n); } else { assert ur == []; }
  }

  /** Separators around a sanitized name are dropped entirely. */
  lemma SanitizeTrimmed(l: string, a: string, r: string)
    requires IsSanitized(a) && a != []
    requires forall i :: 0 <= i < |l| ==> IsSeparator(l[i])
    requires forall i :: 0 <= i < |r| ==> IsSeparator(r[i])
    ensures Sanitize(l + a + r) == a
  {
    PrepareConcat(l + a, r);
    PrepareConcat(l, a);
    PrepareSanitized(a);
    PrepareSeparators(l);
    PrepareSeparators(r);
    assert Prepare(l + a + r) == Underscores(|l|) + a + Underscores(|r|);
    CollapseAround(|l|, a, |r|);
    StripAround(a, |l| > 0, |r| > 0);
  }

  /** One separator between two pieces becomes one '_' at stages 1 and 2. */
  lemma PrepareJoin(x: string, c: char, y: string)
    requires IsSeparator(c)
    ensures Prepare(x + [c] + y) == Prepare(x) + "_" + Prepare(y)
  {
    PrepareConcat(x + [c], y);
    PrepareConcat(x, [c]);
    PrepareAt([c]);
  }

  /** Three sanitized names separated by single separators are joined by single underscores. */
  lemma SanitizeJoined3(a: string, c: char, b: string, d: char, e: string)
    requires IsSanitized(a) && IsSanitized(b) && IsSanitized(e) && a != [] && b != [] && e != []
    requires IsSeparator(c) && IsSeparator(d)
    ensures Sanitize(a + [c] + b + [d] + e) == a + "_" + b + "_" + e
  {
    var s := a + [c] + b + [d] + e;
    var t := b + [d] + e;
    assert Prepare(t) == b + "_" + e by {
      PrepareJoin(b, d, e);
      PrepareSanitized(b);
      PrepareSanitized(e);
    }
    assert Prepare(s) == a + "_" + (b + "_" + e) by {
      assert s == a + [c] + t;
      PrepareJoin(a, c, t);
      PrepareSanitized(a);
    }
    assert IsSanitized(a + "_" + (b + "_" + e)) by {
      SanitizedJoin(b, e);
      SanitizedJoin(a, b + "_" + e);
    }
    SanitizeClean(s);
    assert a + "_" + (b + "_" + e) == a + "_" + b + "_" + e;
  }
}
