/**
 The fixed URL pattern of the product form, `^(ftp|http|https):\/\/[^ "]+$`,
 encoded as a string predicate rather than through a regex engine.

 The pattern carries no flags, so `^` and `$` anchor at the two ends of the
 whole input, the scheme is case-sensitive, and the class `[^ "]` accepts
 every character other than a space and a double quote (line breaks
 included).
 */
module UrlPattern {

  /** The three alternatives of the group `(ftp|http|https)`, in the order
      the pattern lists them. */
  const Schemes: seq<string> := ["ftp", "http", "https"]

  /** The separator `:\/\/` that must follow the scheme. */
  const Separator: string := "://"

  /** A character of the class `[^ "]`. */
  predicate Allowed(c: char) {
    c != ' ' && c != '"'
  }

  /** Every character of `s` belongs to `[^ "]`. */
  ghost predicate AllAllowed(s: string) {
    forall i :: 0 <= i < |s| ==> Allowed(s[i])
  }

  /** Scans `s` one character at a time against `[^ "]`, as the repetition
      `[^ "]*` followed by `$` does. */
  function ScanAllowed(s: string): (r: bool)
    ensures r <==> AllAllowed(s)
  {
    if s == [] then true
    else Allowed(s[0]) && ScanAllowed(s[1..])
  }

  /** The pattern with its group fixed to the alternative `scheme`:
      `scheme` then `://` then one or more characters of `[^ "]`, up to the
      end of the input. */
  predicate MatchesWith(s: string, scheme: string) {
    var n := |scheme| + |Separator|;
    n < |s| && s[..n] == scheme + Separator && ScanAllowed(s[n..])
  }

  /** The pattern succeeds on `s` when one of the alternatives of the group
      leads to a match, tried in the pattern's order. */
  predicate Matches(s: string) {
    MatchesWith(s, Schemes[0]) || MatchesWith(s, Schemes[1]) || MatchesWith(s, Schemes[2])
  }

  /** The language the pattern denotes: a scheme, the separator and a
      non-empty rest made of allowed characters. */
  ghost predicate InLanguage(s: string) {
    exists k, rest: string {:trigger Schemes[k] + Separator + rest} ::
      0 <= k < |Schemes| && s == Schemes[k] + Separator + rest && rest != [] && AllAllowed(rest)
  }

  /** Splits a URL the pattern accepts into the alternative that matched
      and the rest after the separator. */
  function Split(s: string): (r: (nat, string))
    requires Matches(s)
    ensures r.0 < |Schemes|
    ensures s == Schemes[r.0] + Separator + r.1
    ensures r.1 != [] && AllAllowed(r.1)
  {
    var k := if MatchesWith(s, Schemes[0]) then 0
             else if MatchesWith(s, Schemes[1]) then 1
             else 2;
    var n := |Schemes[k]| + |Separator|;
    assert s == s[..n] + s[n..];
    (k, s[n..])
  }

  /** Soundness: every string the pattern accepts lies in its language. */
  lemma MatchesIsSound(s: string)
    requires Matches(s)
    ensures InLanguage(s)
  {
    var (k, rest) := Split(s);
    assert s == Schemes[k] + Separator + rest;
  }

  /** Completeness: the pattern accepts every string of its language. */
  lemma MatchesIsComplete(scheme: nat, rest: string)
    requires scheme < |Schemes|
    requires rest != [] && AllAllowed(rest)
    ensures Matches(Schemes[scheme] + Separator + rest)
  {
    var s := Schemes[scheme] + Separator + rest;
    var n := |Schemes[scheme]| + |Separator|;
    assert s[..n] == Schemes[scheme] + Separator;
    assert s[n..] == rest;
    assert MatchesWith(s, Schemes[scheme]);
  }

  /** The pattern accepts exactly the strings of its language. */
  lemma MatchesIffInLanguage(s: string)
    ensures Matches(s) <==> InLanguage(s)
  {
    if Matches(s) {
      MatchesIsSound(s);
    }
    if InLanguage(s) {
      var k, rest :| 0 <= k < |Schemes| && s == Schemes[k] + Separator + rest && rest != [] && AllAllowed(rest);
      MatchesIsComplete(k, rest);
    }
  }

  /** The three ways a string fails the pattern: no accepted scheme prefix,
      nothing after the separator, or a space or double quote after it. */
  lemma RejectionReasons(s: string, k: nat)
    requires k < |Schemes|
    ensures Schemes[k] + Separator == s ==> !Matches(s)
    ensures (Schemes[k] + Separator <= s && exists i :: |Schemes[k] + Separator| <= i < |s| && !Allowed(s[i])) ==> !Matches(s)
    ensures (forall j :: 0 <= j < |Schemes| ==> !(Schemes[j] + Separator <= s)) ==> !Matches(s)
  {
    if Matches(s) {
      var (j, rest) := Split(s);
      assert Schemes[j] + Separator <= s;
      if Schemes[k] + Separator <= s {
        PrefixesExclusive(s, j, k);
        assert s[|Schemes[k]| + 3..] == rest;
      }
    }
  }

  /** A string fails the pattern exactly when one of the three reasons of
      `RejectionReasons` applies to it: it starts with none of the three
      scheme prefixes, it is a bare prefix, or a character after its prefix
      is a space or a double quote. */
  lemma RejectionHasReason(s: string)
    ensures !Matches(s) <==>
      || (forall j :: 0 <= j < |Schemes| ==> !(Schemes[j] + Separator <= s))
      || (exists j :: 0 <= j < |Schemes| && s == Schemes[j] + Separator)
      || (exists j, i :: 0 <= j < |Schemes| && Schemes[j] + Separator <= s &&
                         |Schemes[j] + Separator| <= i < |s| && !Allowed(s[i]))
  {
    if !Matches(s) {
      if j :| 0 <= j < |Schemes| && Schemes[j] + Separator <= s {
        var n := |Schemes[j]| + |Separator|;
        if |s| == n {
          assert s == Schemes[j] + Separator;
        } else {
          // The prefix is there and something follows it, so the scan of
          // the rest is what failed.
          assert s[..n] == Schemes[j] + Separator;
          assert !MatchesWith(s, Schemes[j]);
          var i :| 0 <= i < |s[n..]| && !Allowed(s[n..][i]);
          assert !Allowed(s[n + i]);
        }
      }
    } else {
      forall j | 0 <= j < |Schemes| ensures !(s == Schemes[j] + Separator) {
        RejectionReasons(s, j);
      }
      forall j, i | 0 <= j < |Schemes| && Schemes[j] + Separator <= s && |Schemes[j] + Separator| <= i < |s|
        ensures Allowed(s[i])
      {
        RejectionReasons(s, j);
      }
    }
  }

  /** No two of the separator-terminated scheme prefixes can both start
      the same string, so at most one alternative of the group applies. */
  lemma PrefixesExclusive(s: string, j: nat, k: nat)
    requires j < |Schemes| && k < |Schemes|
    requires Schemes[j] + Separator <= s && Schemes[k] + Separator <= s
    ensures j == k
  {
    // Both prefixes agree with `s` on their common length; the fourth and
    // fifth characters (`:`/`p`/`p` and `/`/`:`/`s`) tell the three apart.
    assert (Schemes[j] + Separator)[3] == s[3] == (Schemes[k] + Separator)[3];
    assert (Schemes[j] + Separator)[4] == s[4] == (Schemes[k] + Separator)[4];
  }

  /** Nothing the pattern accepts contains a space or a double quote, and
      the shortest accepted string has seven characters (`ftp://x`). */
  lemma MatchedUrlShape(s: string)
    requires Matches(s)
    ensures AllAllowed(s)
    ensures |s| >= 7
  {
    var (k, rest) := Split(s);
    assert AllAllowed(Schemes[k] + Separator);
    forall i | 0 <= i < |s| ensures Allowed(s[i]) {
      if i >= |Schemes[k]| + 3 {
        assert s[i] == rest[i - |Schemes[k]| - 3];
      } else {
        assert s[i] == (Schemes[k] + Separator)[i];
      }
    }
  }

  /** Inputs on either side of the pattern: the shortest accepted URL, a
      line break after the separator (the class admits it), a bare scheme,
      an upper-case scheme, a missing slash and an embedded space. */
  lemma Ejemplos()
    ensures Matches("ftp://x")
    ensures Matches("http://a\nb")
    ensures !Matches("http://")
    ensures !Matches("HTTP://x")
    ensures !Matches("https:/x")
    ensures !Matches("https://a b")
  {
    MatchesIsComplete(0, "x");
    assert "ftp" + Separator + "x" == "ftp://x";
    MatchesIsComplete(1, "a\nb");
    assert "http" + Separator + "a\nb" == "http://a\nb";
    RejectionReasons("http://", 1);
    RejectionReasons("https://a b", 2);
    assert "https://a b"[9] == ' ';
    // The first character rules out every lower-case scheme.
    assert "HTTP://x"[..6][0] != (Schemes[0] + Separator)[0];
    assert "HTTP://x"[..7][0] != (Schemes[1] + Separator)[0];
    assert "HTTP://x"[..8][0] != (Schemes[2] + Separator)[0];
    // `ftp` fails on the first character, `http` on the fifth, and `https`
    // leaves nothing after its prefix.
    assert "https:/x"[..6][0] != (Schemes[0] + Separator)[0];
    assert "https:/x"[..7][4] != (Schemes[1] + Separator)[4];
  }
}
