/**
  The single-page-app redirect decoder run before the first render: a
  query string of the form `?/path&rest` is turned back into the path it
  encodes. `&` separated the original query's parts and becomes `?`;
  `~and~` stood for a literal `&`.
*/
module Redirect {
  import opened Common

  /** `s.split(c)`: the pieces between occurrences of `c`; always at least one. */
  function Split(s: string, c: char): (parts: seq<string>)
    ensures |parts| >= 1
    ensures forall i :: 0 <= i < |parts| ==> c !in parts[i]
    ensures Join(parts, c) == s
  {
    if s == [] then [[]]
    else
      var rest := Split(s[1..], c);
      if s[0] == c then
        assert ([[]] + rest)[1..] == rest;
        [[]] + rest
      else
        var parts := [[s[0]] + rest[0]] + rest[1..];
        assert parts[1..] == rest[1..];
        assert Join(parts, c) == [s[0]] + Join(rest, c);
        parts
  }

  /** `parts.join(c)` */
  function Join(parts: seq<string>, c: char): string
    requires |parts| >= 1
  {
    if |parts| == 1 then parts[0] else parts[0] + [c] + Join(parts[1..], c)
  }

  /** Whether `s` starts with `~and~`. */
  predicate StartsWithAnd(s: string) {
    |s| >= 5 && s[..5] == "~and~"
  }

  /** `s.replace(/~and~/g, '&')`: matches are found left to right without overlap. */
  function ReplaceAnd(s: string): string {
    if s == [] then []
    else if StartsWithAnd(s) then "&" + ReplaceAnd(s[5..])
    else [s[0]] + ReplaceAnd(s[1..])
  }

  /** Split on `&`, replace `~and~` in each piece, join with `?`. */
  function DecodeQuery(q: string): string {
    var parts := Split(q, '&');
    Join(seq(|parts|, i requires 0 <= i < |parts| => ReplaceAnd(parts[i])), '?')
  }

  /**
    The location the page is rewritten to, or None when the query does not
    start with `?/` and the location is left alone: the path without its
    last character, then the decoded query, then the hash.
  */
  function Redirect(search: string, pathname: string, hash: string): (r: Option<string>)
    ensures r.Some? <==> |search| >= 2 && search[1] == '/'
    ensures r.Some? ==> r.value == (if pathname == [] then [] else pathname[..|pathname| - 1])
                                   + DecodeQuery(search[1..]) + hash
  {
    if |search| >= 2 && search[1] == '/' then
      Some((if pathname == [] then [] else pathname[..|pathname| - 1]) + DecodeQuery(search[1..]) + hash)
    else None
  }

  /**
    A one-pass reference for the decoding: `~and~` gives `&`, a separating
    `&` gives `?`, any other character is kept.
  */
  function DecodeDirect(q: string): string {
    if q == [] then []
    else if StartsWithAnd(q) then "&" + DecodeDirect(q[5..])
    else if q[0] == '&' then "?" + DecodeDirect(q[1..])
    else [q[0]] + DecodeDirect(q[1..])
  }

  /** The first piece of a split is a prefix of the string, and the rest is the split of what follows it. */
  lemma {:induction false} SplitHead(s: string, c: char)
    ensures |Split(s, c)[0]| <= |s| && Split(s, c)[0] == s[..|Split(s, c)[0]|]
    ensures |Split(s, c)[0]| < |s| ==> s[|Split(s, c)[0]|] == c
  {
    if s != [] {
      SplitHead(s[1..], c);
    }
  }

  /** Splitting `p + t` where `p` has no separator glues `p` onto the first piece of `t`. */
  lemma {:induction false} SplitPrefix(p: string, t: string, c: char)
    requires c !in p
    ensures Split(p + t, c) == [p + Split(t, c)[0]] + Split(t, c)[1..]
  {
    if p != [] {
      assert (p + t)[0] == p[0];
      assert (p + t)[1..] == p[1..] + t;
      SplitPrefix(p[1..], t, c);
      assert [p[0]] + (p[1..] + Split(t, c)[0]) == p + Split(t, c)[0];
    } else {
      var tp := Split(t, c);
      assert p + t == t;
      assert p + tp[0] == tp[0];
      assert [tp[0]] + tp[1..] == tp;
    }
  }

  function Mapped(parts: seq<string>): (r: seq<string>)
    ensures |r| == |parts|
  {
    seq(|parts|, i requires 0 <= i < |parts| => ReplaceAnd(parts[i]))
  }

  /** Replacing in the pieces of `[p + tp[0]] + tp[1..]`, where `p` becomes `p'`, glues `p'` onto the joined pieces of `tp`. */
  lemma GlueHead(tp: seq<string>, p: string, p': string)
    requires |tp| >= 1
    requires ReplaceAnd(p + tp[0]) == p' + ReplaceAnd(tp[0])
    ensures Join(Mapped([p + tp[0]] + tp[1..]), '?') == p' + Join(Mapped(tp), '?')
  {
    var parts := [p + tp[0]] + tp[1..];
    var m := Mapped(tp);
    assert Mapped(parts) == [p' + m[0]] + m[1..] by {
      forall i | 0 <= i < |parts| ensures Mapped(parts)[i] == ([p' + m[0]] + m[1..])[i] {
        if i > 0 { assert parts[i] == tp[i]; }
      }
    }
    JoinHeadCons(tp, p');
  }

  lemma CaseAnd(t: string)
    ensures DecodeQuery("~and~" + t) == "&" + DecodeQuery(t)
  {
    var tp := Split(t, '&');
    SplitPrefix("~and~", t, '&');
    assert ReplaceAnd("~and~" + tp[0]) == "&" + ReplaceAnd(tp[0]) by {
      assert StartsWithAnd("~and~" + tp[0]);
      assert ("~and~" + tp[0])[5..] == tp[0];
    }
    GlueHead(tp, "~and~", "&");
  }

  lemma CaseSeparator(t: string)
    ensures DecodeQuery("&" + t) == "?" + DecodeQuery(t)
  {
    var tp := Split(t, '&');
    var q := "&" + t;
    assert q[1..] == t;
    assert Split(q, '&') == [[]] + tp;
    var m := Mapped(tp);
    assert Mapped([[]] + tp) == [[]] + m by {
      forall i | 0 <= i < 1 + |tp| ensures Mapped([[]] + tp)[i] == ([[]] + m)[i] {
        if i > 0 { assert ([[]] + tp)[i] == tp[i - 1]; }
      }
    }
    assert ([[]] + m)[1..] == m;
  }

  lemma CaseOther(q: string)
    requires q != [] && q[0] != '&' && !StartsWithAnd(q)
    ensures DecodeQuery(q) == [q[0]] + DecodeQuery(q[1..])
  {
    var t := q[1..];
    var tp := Split(t, '&');
    assert Split(q, '&') == [[q[0]] + tp[0]] + tp[1..];
    SplitHead(t, '&');
    assert ReplaceAnd([q[0]] + tp[0]) == [q[0]] + ReplaceAnd(tp[0]) by {
      var xs := [q[0]] + tp[0];
      assert xs[1..] == tp[0];
      assert xs == q[..|xs|];
    }
    GlueHead(tp, [q[0]], [q[0]]);
  }

  /** Splitting on `&`, replacing inside the pieces and joining with `?` is the one-pass decoding. */
  lemma {:induction false} DecodeQueryIsDirect(q: string)
    ensures DecodeQuery(q) == DecodeDirect(q)
    decreases |q|
  {
    if q == [] {
    } else if StartsWithAnd(q) {
      assert q == "~and~" + q[5..];
      CaseAnd(q[5..]);
      DecodeQueryIsDirect(q[5..]);
    } else if q[0] == '&' {
      assert q == "&" + q[1..];
      CaseSeparator(q[1..]);
      DecodeQueryIsDirect(q[1..]);
    } else {
      CaseOther(q);
      DecodeQueryIsDirect(q[1..]);
    }
  }

  /** Gluing a string onto the first piece before the join is gluing it onto the joined result. */
  lemma JoinHeadCons(tp: seq<string>, p: string)
    requires |tp| >= 1
    ensures Join([p + Mapped(tp)[0]] + Mapped(tp)[1..], '?') == p + Join(Mapped(tp), '?')
  {
    var m := Mapped(tp);
    var g := [p + m[0]] + m[1..];
    if |tp| > 1 {
      assert g[1..] == m[1..];
    }
  }

  /** With neither `&` nor `~and~` in it, the query decodes to itself. */
  lemma {:induction false} DecodePlain(q: string)
    requires '&' !in q
    requires forall i :: 0 <= i < |q| ==> !StartsWithAnd(q[i..])
    ensures DecodeQuery(q) == q
  {
    DecodeQueryIsDirect(q);
    DirectPlain(q);
  }

  lemma {:induction false} DirectPlain(q: string)
    requires '&' !in q
    requires forall i :: 0 <= i < |q| ==> !StartsWithAnd(q[i..])
    ensures DecodeDirect(q) == q
  {
    if q != [] {
      assert !StartsWithAnd(q[0..]);
      assert q[0..] == q;
      forall i | 0 <= i < |q[1..]| ensures !StartsWithAnd(q[1..][i..]) {
        assert q[1..][i..] == q[i + 1..];
      }
      DirectPlain(q[1..]);
    }
  }

  /** Without `~and~`, decoding only turns each `&` into `?`. */
  lemma {:induction false} DecodeSeparatorsOnly(q: string)
    requires forall i :: 0 <= i < |q| ==> !StartsWithAnd(q[i..])
    ensures |DecodeQuery(q)| == |q|
    ensures forall i :: 0 <= i < |q| ==> DecodeQuery(q)[i] == if q[i] == '&' then '?' else q[i]
  {
    DecodeQueryIsDirect(q);
    DirectSeparators(q);
  }

  lemma {:induction false} DirectSeparators(q: string)
    requires forall i :: 0 <= i < |q| ==> !StartsWithAnd(q[i..])
    ensures |DecodeDirect(q)| == |q|
    ensures forall i :: 0 <= i < |q| ==> DecodeDirect(q)[i] == if q[i] == '&' then '?' else q[i]
  {
    if q != [] {
      assert q[0..] == q;
      forall i | 0 <= i < |q[1..]| ensures !StartsWithAnd(q[1..][i..]) {
        assert q[1..][i..] == q[i + 1..];
      }
      DirectSeparators(q[1..]);
    }
  }

  /**
    Every `&` in the decoded query comes from a `~and~`: the pieces are
    split on `&` before the replacement, so a replaced `&` is never turned
    into `?`, and the decoding holds exactly as many `&` as the query
    holds `~and~` matches.
  */
  function AndCount(q: string): nat {
    if q == [] then 0
    else if StartsWithAnd(q) then 1 + AndCount(q[5..])
    else AndCount(q[1..])
  }

  function CharCount(s: string, c: char): nat {
    if s == [] then 0 else (if s[0] == c then 1 else 0) + CharCount(s[1..], c)
  }

  lemma {:induction false} CharCountConcat(a: string, b: string, c: char)
    ensures CharCount(a + b, c) == CharCount(a, c) + CharCount(b, c)
  {
    if a == [] {
      assert a + b == b;
    } else {
      assert (a + b)[1..] == a[1..] + b;
      CharCountConcat(a[1..], b, c);
    }
  }

  lemma {:induction false} DecodedAmpersands(q: string)
    ensures CharCount(DecodeQuery(q), '&') == AndCount(q)
  {
    DecodeQueryIsDirect(q);
    DirectAmpersands(q);
  }

  lemma {:induction false} DirectAmpersands(q: string)
    ensures CharCount(DecodeDirect(q), '&') == AndCount(q)
  {
    if q != [] {
      if StartsWithAnd(q) {
        DirectAmpersands(q[5..]);
        CharCountConcat("&", DecodeDirect(q[5..]), '&');
      } else if q[0] == '&' {
        DirectAmpersands(q[1..]);
        CharCountConcat("?", DecodeDirect(q[1..]), '&');
      } else {
        DirectAmpersands(q[1..]);
        CharCountConcat([q[0]], DecodeDirect(q[1..]), '&');
      }
    }
  }
}
