/**
  Shared vocabulary of the model: optional values, the state of one
  local-storage key, list operations keyed by an id (the `filter`, `map`
  and `find` calls the pages make over stored arrays), and the few string
  operations of the browser runtime the pages rely on (lower-casing,
  substring search, decimal rendering and `parseInt`).
*/
module Common {

  datatype Option<+T> = None | Some(value: T)

  /** A string is "truthy" in JavaScript exactly when it is not empty. */
  predicate Truthy(s: string) { s != [] }

  /** An optional string (an unset form field) is truthy when present and non-empty. */
  predicate Given(o: Option<string>) { o.Some? && o.value != [] }

  /** `o || ''` */
  function OrEmpty(o: Option<string>): (r: string)
    ensures Given(o) ==> r == o.value
    ensures !Given(o) ==> r == []
  {
    if o.Some? then o.value else []
  }

  /**
    What a local-storage key that should hold a JSON array holds: nothing,
    text that `JSON.parse` rejects, a parsed value that is not an array, or
    an array of records.
  */
  datatype Slot<T> = Absent | Unparsable | NotArray | Items(items: seq<T>)

  // ---------------------------------------------------------------------
  // Lists of records keyed by a string id

  predicate HasId<T>(xs: seq<T>, idOf: T -> string, key: string) {
    exists i :: 0 <= i < |xs| && idOf(xs[i]) == key
  }

  predicate UniqueIds<T>(xs: seq<T>, idOf: T -> string) {
    forall i, j :: 0 <= i < j < |xs| ==> idOf(xs[i]) != idOf(xs[j])
  }

  /** `xs.filter(x => x.id !== key)` */
  function Without<T>(xs: seq<T>, idOf: T -> string, key: string): (r: seq<T>)
    ensures |r| <= |xs|
    ensures forall i :: 0 <= i < |r| ==> r[i] in xs && idOf(r[i]) != key
    ensures forall i :: 0 <= i < |xs| && idOf(xs[i]) != key ==> xs[i] in r
    ensures !HasId(r, idOf, key)
    ensures !HasId(xs, idOf, key) ==> r == xs
  {
    if xs == [] then []
    else if idOf(xs[0]) == key then Without(xs[1..], idOf, key)
    else [xs[0]] + Without(xs[1..], idOf, key)
  }

  /** Filtering keeps the relative order: it distributes over concatenation. */
  lemma {:induction false} WithoutConcat<T>(a: seq<T>, b: seq<T>, idOf: T -> string, key: string)
    ensures Without(a + b, idOf, key) == Without(a, idOf, key) + Without(b, idOf, key)
  {
    if a == [] {
      assert a + b == b;
    } else {
      assert (a + b)[0] == a[0];
      assert (a + b)[1..] == a[1..] + b;
      WithoutConcat(a[1..], b, idOf, key);
    }
  }

  /** `xs.map(x => x.id === key ? v : x)` */
  function Replace<T>(xs: seq<T>, idOf: T -> string, key: string, v: T): (r: seq<T>)
    ensures |r| == |xs|
    ensures forall i :: 0 <= i < |xs| && idOf(xs[i]) == key ==> r[i] == v
    ensures forall i :: 0 <= i < |xs| && idOf(xs[i]) != key ==> r[i] == xs[i]
  {
    if xs == [] then []
    else [if idOf(xs[0]) == key then v else xs[0]] + Replace(xs[1..], idOf, key, v)
  }

  /** Replacing records by one that carries the same id leaves the ids, and so their uniqueness, as they were. */
  lemma ReplaceKeepsIds<T>(xs: seq<T>, idOf: T -> string, key: string, v: T)
    requires idOf(v) == key
    ensures forall i :: 0 <= i < |xs| ==> idOf(Replace(xs, idOf, key, v)[i]) == idOf(xs[i])
    ensures UniqueIds(xs, idOf) ==> UniqueIds(Replace(xs, idOf, key, v), idOf)
  {
    var r := Replace(xs, idOf, key, v);
    assert forall i :: 0 <= i < |xs| ==> idOf(r[i]) == idOf(xs[i]) by {
      forall i | 0 <= i < |xs| ensures idOf(r[i]) == idOf(xs[i]) {
        if idOf(xs[i]) == key { assert r[i] == v; } else { assert r[i] == xs[i]; }
      }
    }
  }

  /** `xs.find(x => x.id === key)` */
  function Find<T>(xs: seq<T>, idOf: T -> string, key: string): (r: Option<T>)
    ensures r.Some? <==> HasId(xs, idOf, key)
    ensures r.Some? ==> exists i :: 0 <= i < |xs| && xs[i] == r.value && idOf(xs[i]) == key
                                    && forall j :: 0 <= j < i ==> idOf(xs[j]) != key
  {
    if xs == [] then None
    else if idOf(xs[0]) == key then Some(xs[0])
    else
      var r := Find(xs[1..], idOf, key);
      assert HasId(xs, idOf, key) <==> HasId(xs[1..], idOf, key) by {
        if HasId(xs, idOf, key) {
          var i :| 0 <= i < |xs| && idOf(xs[i]) == key;
          assert idOf(xs[1..][i - 1]) == key;
        }
        if HasId(xs[1..], idOf, key) {
          var i :| 0 <= i < |xs| - 1 && idOf(xs[1..][i]) == key;
          assert idOf(xs[i + 1]) == key;
        }
      }
      if r.Some? then
        ghost var i :| 0 <= i < |xs[1..]| && xs[1..][i] == r.value && idOf(xs[1..][i]) == key
                       && forall j :: 0 <= j < i ==> idOf(xs[1..][j]) != key;
        assert xs[i + 1] == r.value && idOf(xs[i + 1]) == key;
        assert forall j :: 0 <= j < i + 1 ==> idOf(xs[j]) != key by {
          forall j | 0 <= j < i + 1 ensures idOf(xs[j]) != key {
            if j > 0 { assert xs[j] == xs[1..][j - 1]; }
          }
        }
        r
      else r
  }

  /** Appending a record whose id is not yet present keeps the ids unique. */
  lemma AppendKeepsUnique<T>(xs: seq<T>, idOf: T -> string, x: T)
    requires UniqueIds(xs, idOf) && !HasId(xs, idOf, idOf(x))
    ensures UniqueIds(xs + [x], idOf)
  {
    var ys := xs + [x];
    forall i, j | 0 <= i < j < |ys| ensures idOf(ys[i]) != idOf(ys[j]) {
      if j == |xs| {
        assert ys[i] == xs[i];
      } else {
        assert ys[i] == xs[i] && ys[j] == xs[j];
      }
    }
  }
  /** `xs` with `x` appended, or None when an element with the id of `x` is already there. */
  function AppendNew<T>(xs: seq<T>, idOf: T -> string, x: T): (r: Option<seq<T>>)
    ensures r.None? <==> HasId(xs, idOf, idOf(x))
    ensures r.Some? ==> r.value == xs + [x]
    ensures r.Some? && UniqueIds(xs, idOf) ==> UniqueIds(r.value, idOf)
  {
    if HasId(xs, idOf, idOf(x)) then None
    else
      assert UniqueIds(xs, idOf) ==> UniqueIds(xs + [x], idOf) by {
        if UniqueIds(xs, idOf) {
          AppendKeepsUnique(xs, idOf, x);
        }
      }
      Some(xs + [x])
  }


  // ---------------------------------------------------------------------
  // Strings

  /** `toLowerCase` on one character (ASCII letters only). */
  function LowerChar(c: char): (r: char)
    ensures 'A' <= c <= 'Z' ==> 'a' <= r <= 'z'
    ensures 'A' <= c <= 'Z' ==> r as int - 'a' as int == c as int - 'A' as int
    ensures !('A' <= c <= 'Z') ==> r == c
  {
    if 'A' <= c <= 'Z' then (c as int - 'A' as int + 'a' as int) as char else c
  }

  function Lower(s: string): (r: string)
    ensures |r| == |s|
    ensures forall i :: 0 <= i < |s| ==> r[i] == LowerChar(s[i])
  {
    seq(|s|, i requires 0 <= i < |s| => LowerChar(s[i]))
  }

  /** `t` occurs in `s` starting at position `i`. */
  predicate OccursAt(s: string, t: string, i: int) {
    0 <= i && i + |t| <= |s| && s[i..i + |t|] == t
  }

  /** `s.includes(t)`, scanning from the left. */
  function Includes(s: string, t: string): (r: bool)
    ensures r <==> exists i :: OccursAt(s, t, i)
    decreases |s|
  {
    if |t| <= |s| && s[..|t|] == t then
      assert OccursAt(s, t, 0);
      true
    else if s == [] then
      assert forall i :: !OccursAt(s, t, i);
      false
    else
      var r := Includes(s[1..], t);
      assert (exists i :: OccursAt(s, t, i)) <==> (exists i :: OccursAt(s[1..], t, i)) by {
        if exists i :: OccursAt(s, t, i) {
          var i :| OccursAt(s, t, i);
          assert i != 0;
          assert s[1..][i - 1..i - 1 + |t|] == s[i..i + |t|];
          assert OccursAt(s[1..], t, i - 1);
        }
        if exists i :: OccursAt(s[1..], t, i) {
          var i :| OccursAt(s[1..], t, i);
          assert s[i + 1..i + 1 + |t|] == s[1..][i..i + |t|];
          assert OccursAt(s, t, i + 1);
        }
      }
      r
  }

  // ---------------------------------------------------------------------
  // Decimal numbers

  predicate IsDigit(c: char) { '0' <= c <= '9' }

  function DigitChar(d: nat): (c: char)
    requires d < 10
    ensures IsDigit(c)
  {
    ('0' as int + d) as char
  }

  /** `String(n)` for a non-negative integer: its decimal digits, most significant first. */
  function NatToDecimal(n: nat): (r: string)
    ensures |r| > 0
    ensures forall i :: 0 <= i < |r| ==> IsDigit(r[i])
    ensures |r| > 1 ==> r[0] != '0'
  {
    if n < 10 then [DigitChar(n)]
    else NatToDecimal(n / 10) + [DigitChar(n % 10)]
  }

  predicate IsSpace(c: char) {
    c == ' ' || c == '\t' || c == '\n' || c == '\r' || c == '\U{000B}' || c == '\U{000C}'
    || c == '\U{00A0}' || c == '\U{FEFF}'
  }

  function TrimStart(s: string): (r: string)
    ensures |r| <= |s| && r == s[|s| - |r|..]
    ensures r == [] || !IsSpace(r[0])
  {
    if s != [] && IsSpace(s[0]) then TrimStart(s[1..]) else s
  }

  /** Value of a digit in the given radix (10 or 16), or -1 when it is not one. */
  function DigitValue(c: char, radix: nat): (v: int)
    requires radix == 10 || radix == 16
    ensures -1 <= v < radix as int
  {
    if '0' <= c <= '9' then c as int - '0' as int
    else if radix == 16 && 'a' <= c <= 'f' then c as int - 'a' as int + 10
    else if radix == 16 && 'A' <= c <= 'F' then c as int - 'A' as int + 10
    else -1
  }

  /** Length of the longest prefix of `s` made of digits of the radix. */
  function DigitRun(s: string, radix: nat): (n: nat)
    requires radix == 10 || radix == 16
    ensures n <= |s|
    ensures forall i :: 0 <= i < n ==> DigitValue(s[i], radix) >= 0
    ensures n < |s| ==> DigitValue(s[n], radix) < 0
  {
    if s == [] || DigitValue(s[0], radix) < 0 then 0 else 1 + DigitRun(s[1..], radix)
  }

  /** Value of a string of digits, most significant first. */
  function DigitsValue(s: string, radix: nat): (v: nat)
    requires radix == 10 || radix == 16
    requires forall i :: 0 <= i < |s| ==> DigitValue(s[i], radix) >= 0
  {
    if s == [] then 0
    else DigitsValue(s[..|s| - 1], radix) * radix + DigitValue(s[|s| - 1], radix)
  }

  /** The value of the longest run of radix digits at the start of `v`; None when there is none (NaN). */
  function Magnitude(v: string, radix: nat): (m: Option<nat>)
    requires radix == 10 || radix == 16
    ensures m.None? <==> v == [] || DigitValue(v[0], radix) < 0
  {
    var n := DigitRun(v, radix);
    if n == 0 then None else Some(DigitsValue(v[..n], radix))
  }

  /** Splits an optional leading sign off: whether it was a minus, and the rest. */
  function Sign(t: string): (r: (bool, string))
    ensures r.0 <==> |t| > 0 && t[0] == '-'
  {
    if |t| > 0 && (t[0] == '-' || t[0] == '+') then (t[0] == '-', t[1..]) else (false, t)
  }

  /** Splits an optional `0x`/`0X` prefix off: the radix, and the digits that follow. */
  function Radix(u: string): (r: (nat, string))
    ensures r.0 == 10 || r.0 == 16
  {
    if |u| >= 2 && u[0] == '0' && (u[1] == 'x' || u[1] == 'X') then (16, u[2..]) else (10, u)
  }

  /**
    `parseInt(s) || 0`: leading white space is skipped, an optional sign is
    read, a `0x`/`0X` prefix switches to radix 16, and the longest run of
    digits that follows is the value; without any digit `parseInt` gives
    NaN, which `|| 0` turns into 0 (as it does a zero).
  */
  function ParseIntOr0(s: string): int {
    var (negative, u) := Sign(TrimStart(s));
    var (radix, v) := Radix(u);
    var m := Magnitude(v, radix);
    if m.None? then 0 else if negative then 0 - m.value else m.value
  }

  lemma {:induction false} DecimalValue(n: nat)
    ensures forall i :: 0 <= i < |NatToDecimal(n)| ==> DigitValue(NatToDecimal(n)[i], 10) >= 0
    ensures DigitsValue(NatToDecimal(n), 10) == n
  {
    var r := NatToDecimal(n);
    if n >= 10 {
      DecimalValue(n / 10);
      assert r[..|r| - 1] == NatToDecimal(n / 10);
    }
  }

  lemma DecimalMagnitude(n: nat)
    ensures Radix(NatToDecimal(n)) == (10, NatToDecimal(n))
    ensures Magnitude(NatToDecimal(n), 10) == Some(n)
  {
    var d := NatToDecimal(n);
    DecimalValue(n);
    assert DigitRun(d, 10) == |d|;
    assert d[..|d|] == d;
  }

  /** Reading back the decimal rendering of a number gives the number. */
  lemma ParseDecimal(n: nat)
    ensures ParseIntOr0(NatToDecimal(n)) == n
  {
    var d := NatToDecimal(n);
    assert TrimStart(d) == d by { assert !IsSpace(d[0]); }
    assert Sign(d) == (false, d);
    DecimalMagnitude(n);
  }

  /** ... and with a minus sign in front, its negation. */
  lemma ParseNegativeDecimal(n: nat)
    ensures ParseIntOr0("-" + NatToDecimal(n)) == 0 - n
  {
    var d := NatToDecimal(n);
    var s := "-" + d;
    assert TrimStart(s) == s;
    assert Sign(s) == (true, d) by { assert s[1..] == d; }
    DecimalMagnitude(n);
  }
}
