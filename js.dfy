/**
 * The few pieces of JavaScript value semantics the replication engine relies on:
 * `undefined`-able strings, `Array.prototype.join('/')`, the string `<` used for the
 * write-hash tie-break, `String(n)` / `Number(s)` for batch numbers, and the numeric
 * batch counter, which JavaScript lets become `NaN`.
 */
module Js {

  datatype Option<+T> = None | Some(value: T)

  /** A JavaScript value that is a string or `undefined`. */
  type JsString = Option<string>

  /** Template-literal conversion `${x}` of a string-or-undefined. */
  function Interpolate(x: JsString): string
  {
    match x
    case Some(s) => s
    case None => "undefined"
  }

  /** JavaScript truthiness of a string-or-undefined: `undefined` and `""` are falsy. */
  predicate Truthy(x: JsString)
  {
    x.Some? && x.value != ""
  }

  // ---------------------------------------------------------------------------
  // Array.prototype.join('/')
  // ---------------------------------------------------------------------------

  function Join(segs: seq<string>): (r: string)
    ensures |segs| == 1 ==> r == segs[0]
  {
    if |segs| == 0 then ""
    else if |segs| == 1 then segs[0]
    else segs[0] + "/" + Join(segs[1..])
  }

  predicate NoSlash(s: string)
  {
    forall i :: 0 <= i < |s| ==> s[i] != '/'
  }

  predicate SlashFree(segs: seq<string>)
  {
    forall i :: 0 <= i < |segs| ==> NoSlash(segs[i])
  }

  /** Index of the first '/' in `s`, or |s| when there is none. */
  function SlashIndex(s: string): (k: nat)
    ensures k <= |s|
  {
    if |s| == 0 || s[0] == '/' then 0 else 1 + SlashIndex(s[1..])
  }

  lemma {:induction false} SlashIndexAfter(a: string, b: string)
    requires NoSlash(a)
    ensures SlashIndex(a + "/" + b) == |a|
  {
    if |a| > 0 {
      assert (a + "/" + b)[1..] == a[1..] + "/" + b;
      SlashIndexAfter(a[1..], b);
    }
  }

  lemma {:induction false} SlashIndexNone(a: string)
    requires NoSlash(a)
    ensures SlashIndex(a) == |a|
  {
    if |a| > 0 {
      SlashIndexNone(a[1..]);
    }
  }

  lemma SplitAtFirstSlash(a: string, b: string, c: string, d: string)
    requires NoSlash(a) && NoSlash(c)
    requires a + "/" + b == c + "/" + d
    ensures a == c && b == d
  {
    var x := a + "/" + b;
    SlashIndexAfter(a, b);
    SlashIndexAfter(c, d);
    assert a == x[..|a|] == c;
    assert b == x[|a| + 1..] == d;
  }

  /**
   * Joining with '/' loses nothing when no segment contains '/' and both
   * sequences are non-empty (`[].join('/')` and `[""].join('/')` are both "").
   */
  lemma {:induction false} JoinInjective(s: seq<string>, t: seq<string>)
    requires SlashFree(s) && SlashFree(t)
    requires |s| >= 1 && |t| >= 1
    requires Join(s) == Join(t)
    ensures s == t
  {
    if |s| == 1 && |t| == 1 {
    } else if |s| == 1 {
      SlashIndexNone(s[0]);
      SlashIndexAfter(t[0], Join(t[1..]));
      assert false;
    } else if |t| == 1 {
      SlashIndexNone(t[0]);
      SlashIndexAfter(s[0], Join(s[1..]));
      assert false;
    } else {
      SplitAtFirstSlash(s[0], Join(s[1..]), t[0], Join(t[1..]));
      JoinInjective(s[1..], t[1..]);
      assert s == [s[0]] + s[1..];
      assert t == [t[0]] + t[1..];
    }
  }

  // ---------------------------------------------------------------------------
  // String `<`: lexicographic order on characters, a proper prefix being smaller
  // ---------------------------------------------------------------------------

  predicate Less(a: string, b: string)
  {
    if |b| == 0 then false
    else if |a| == 0 then true
    else if a[0] != b[0] then a[0] < b[0]
    else Less(a[1..], b[1..])
  }

  lemma {:induction false} LessIrreflexive(a: string)
    ensures !Less(a, a)
  {
    if |a| > 0 {
      LessIrreflexive(a[1..]);
    }
  }

  lemma {:induction false} LessTransitive(a: string, b: string, c: string)
    requires Less(a, b) && Less(b, c)
    ensures Less(a, c)
  {
    if |a| > 0 && a[0] == b[0] && b[0] == c[0] {
      LessTransitive(a[1..], b[1..], c[1..]);
    }
  }

  lemma {:induction false} LessTotal(a: string, b: string)
    requires a != b
    ensures Less(a, b) || Less(b, a)
  {
    if |a| > 0 && |b| > 0 && a[0] == b[0] {
      assert a == [a[0]] + a[1..];
      assert b == [b[0]] + b[1..];
      LessTotal(a[1..], b[1..]);
    }
  }

  lemma {:induction false} LessAsymmetric(a: string, b: string)
    requires Less(a, b)
    ensures !Less(b, a)
  {
    if Less(b, a) {
      LessTransitive(a, b, a);
      LessIrreflexive(a);
    }
  }

  // ---------------------------------------------------------------------------
  // String(n) and Number(s)
  // ---------------------------------------------------------------------------

  predicate IsDigit(c: char)
  {
    '0' <= c <= '9'
  }

  predicate AllDigits(s: string)
  {
    forall i :: 0 <= i < |s| ==> IsDigit(s[i])
  }

  function DigitChar(d: nat): (c: char)
    requires d < 10
    ensures IsDigit(c)
  {
    "0123456789"[d]
  }

  /** Decimal rendering of a non-negative integer, as `String(n)` gives it. */
  function NatToString(n: nat): (s: string)
    ensures |s| >= 1 && AllDigits(s)
  {
    if n < 10 then [DigitChar(n)] else NatToString(n / 10) + [DigitChar(n % 10)]
  }

  /** Value of a string of decimal digits (leading zeros allowed). */
  function DigitsValue(s: string): nat
    requires AllDigits(s)
  {
    if |s| == 0 then 0
    else DigitsValue(s[..|s| - 1]) * 10 + ((s[|s| - 1] as int) - ('0' as int))
  }

  lemma {:induction false} DigitsOfNatToString(n: nat)
    ensures DigitsValue(NatToString(n)) == n
  {
    var s := NatToString(n);
    if n >= 10 {
      DigitsOfNatToString(n / 10);
      assert s[..|s| - 1] == NatToString(n / 10);
      assert s[|s| - 1] == DigitChar(n % 10);
    }
    assert "0123456789"[0] == '0' && "0123456789"[1] == '1' && "0123456789"[2] == '2';
    assert "0123456789"[3] == '3' && "0123456789"[4] == '4' && "0123456789"[5] == '5';
    assert "0123456789"[6] == '6' && "0123456789"[7] == '7' && "0123456789"[8] == '8';
    assert "0123456789"[9] == '9';
  }

  /**
   * A JavaScript number as the batch counter can hold it: a non-negative integer, or
   * `NaN` once `Math.max` has met a batch segment that is not a number.
   */
  datatype Num = Fin(n: nat) | NaN

  /** `Number(s)` for the strings the model distinguishes: digit strings (and "") give
      their value, every other string gives NaN. */
  function NumberOf(s: JsString): (r: Num)
    ensures s.Some? && AllDigits(s.value) <==> r.Fin?
  {
    match s
    case Some(t) => if AllDigits(t) then Fin(DigitsValue(t)) else NaN
    case None => NaN
  }

  /** `String(x)` of a counter value. */
  function NumToString(x: Num): string
  {
    match x
    case Fin(n) => NatToString(n)
    case NaN => "NaN"
  }

  /** `Number(String(x))` gives `x` back. */
  lemma NumberOfNumToString(x: Num)
    ensures NumberOf(Some(NumToString(x))) == x
  {
    match x
    case Fin(n) =>
      DigitsOfNatToString(n);
    case NaN =>
      assert !IsDigit("NaN"[0]);
  }

  /** `x + 1`; NaN stays NaN. */
  function Inc(x: Num): (r: Num)
    ensures x.Fin? <==> r.Fin?
    ensures x.Fin? ==> r.n == x.n + 1
  {
    match x
    case Fin(n) => Fin(n + 1)
    case NaN => NaN
  }

  /** `Math.max(x, y)`: NaN if either is NaN. */
  function Max(x: Num, y: Num): (r: Num)
    ensures r.Fin? <==> x.Fin? && y.Fin?
    ensures r.Fin? ==> r.n >= x.n && r.n >= y.n && (r.n == x.n || r.n == y.n)
  {
    if x.NaN? || y.NaN? then NaN
    else if x.n >= y.n then x else y
  }

  /** The characters before the first ':' and between the first and second ':'
      of `s`, as `const [a, b] = s.split(':')` binds them. */
  function SplitColon(s: string): (r: (string, JsString))
    ensures |r.0| <= |s|
    ensures forall i :: 0 <= i < |r.0| ==> r.0[i] != ':' && r.0[i] == s[i]
    ensures r.1.None? <==> forall i :: 0 <= i < |s| ==> s[i] != ':'
  {
    if |s| == 0 then ("", None)
    else if s[0] == ':' then ("", Some(UpToColon(s[1..])))
    else
      var rest := SplitColon(s[1..]);
      ([s[0]] + rest.0, rest.1)
  }

  function UpToColon(s: string): (r: string)
    ensures |r| <= |s|
    ensures forall i :: 0 <= i < |r| ==> r[i] != ':' && r[i] == s[i]
    ensures |r| < |s| ==> s[|r|] == ':'
  {
    if |s| == 0 || s[0] == ':' then "" else [s[0]] + UpToColon(s[1..])
  }
}
