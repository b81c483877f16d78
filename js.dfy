/** The fragment of JavaScript's value semantics that the application code relies on:
    nullable values, exceptions, numbers that may be NaN, loose equality, truthiness,
    whitespace trimming, `split`/`join`, `parseInt`, and the index clamping of
    `Array.prototype.slice` and `splice`. */
module Js {

  datatype Option<T> = None | Some(value: T)

  /** The result of code that may throw (a TypeError on `undefined`, or an explicit `throw`). */
  datatype Outcome<T> = Done(value: T) | Thrown(message: string)

  /** A JavaScript number, restricted to the integers and NaN. */
  datatype Num = Int(n: int) | NaN

  /** The JavaScript values that reach the modelled comparisons: null (or undefined), a number, a string. */
  datatype JsValue = JNull | JNum(num: Num) | JStr(s: string)

  /** `a < b` on numbers: any comparison with NaN is false. */
  predicate Less(a: Num, b: Num) {
    a.Int? && b.Int? && a.n < b.n
  }

  /** `a == b` on two nullable numbers: null equals only null, NaN equals nothing. */
  predicate LooseEqNum(a: Option<Num>, b: Option<Num>) {
    match (a, b)
    case (None, None) => true
    case (Some(Int(x)), Some(Int(y))) => x == y
    case _ => false
  }

  lemma LooseEqNumIsEquality(a: Option<Num>, b: Option<Num>)
    requires LooseEqNum(a, b)
    ensures a == b && (a.Some? ==> a.value.Int?)
  {
  }

  /** `x - 1` on a nullable number (`null - 1` is -1 in JavaScript). */
  function Decrement(x: Option<Num>): (r: Option<Num>)
    ensures r.Some?
    ensures x.Some? && x.value.Int? ==> r == Some(Int(x.value.n - 1))
  {
    match x
    case None => Some(Int(-1))
    case Some(NaN) => Some(NaN)
    case Some(Int(k)) => Some(Int(k - 1))
  }

  // ---------------------------------------------------------------------------
  // Characters, whitespace and trimming

  /** The characters `String.prototype.trim` removes: WhiteSpace and LineTerminator of ECMAScript. */
  predicate IsSpace(c: char) {
    c in {'\U{9}', '\U{A}', '\U{B}', '\U{C}', '\U{D}', '\U{20}', '\U{A0}', '\U{1680}',
          '\U{2000}', '\U{2001}', '\U{2002}', '\U{2003}', '\U{2004}', '\U{2005}', '\U{2006}', '\U{2007}',
          '\U{2008}', '\U{2009}', '\U{200A}', '\U{2028}', '\U{2029}', '\U{202F}', '\U{205F}', '\U{3000}',
          '\U{FEFF}'}
  }

  predicate IsDigit(c: char) {
    '0' <= c <= '9'
  }

  function DigitValue(c: char): nat
    requires IsDigit(c)
  {
    c as int - '0' as int
  }

  function TrimStart(s: string): (r: string)
    ensures |r| <= |s| && r == s[|s| - |r|..]
    ensures r == [] || !IsSpace(r[0])
    ensures forall i :: 0 <= i < |s| - |r| ==> IsSpace(s[i])
  {
    if s != [] && IsSpace(s[0]) then TrimStart(s[1..]) else s
  }

  function TrimEnd(s: string): (r: string)
    ensures |r| <= |s| && r == s[..|r|]
    ensures r == [] || !IsSpace(r[|r| - 1])
    ensures forall i :: |r| <= i < |s| ==> IsSpace(s[i])
  {
    if s != [] && IsSpace(s[|s| - 1]) then TrimEnd(s[..|s| - 1]) else s
  }

  /** `s.trim()` */
  function Trim(s: string): string {
    TrimEnd(TrimStart(s))
  }

  /** `!value || value.trim().length == 0`, the blank test of the validator. */
  predicate IsBlank(value: Option<string>) {
    value.None? || |Trim(value.value)| == 0
  }

  lemma {:induction false} TrimmedIsFixed(s: string)
    requires s == [] || (!IsSpace(s[0]) && !IsSpace(s[|s| - 1]))
    ensures Trim(s) == s
  {
  }

  /** Trimming twice is trimming once. */
  lemma TrimIsIdempotent(s: string)
    ensures Trim(Trim(s)) == Trim(s)
  {
    var t := TrimStart(s);
    var r := TrimEnd(t);
    if r != [] {
      assert r[0] == t[0];
    }
    TrimmedIsFixed(r);
  }

  /** Trimming adds no character. */
  lemma TrimKeepsOut(s: string, c: char)
    requires c !in s
    ensures c !in Trim(s)
  {
  }

  lemma {:induction false} TrimStartOfSpaces(s: string)
    requires forall i :: 0 <= i < |s| ==> IsSpace(s[i])
    ensures TrimStart(s) == []
  {
    if s != [] {
      TrimStartOfSpaces(s[1..]);
    }
  }

  /** A text is blank exactly when every character is whitespace. */
  lemma BlankIffAllSpaces(s: string)
    ensures |Trim(s)| == 0 <==> forall i :: 0 <= i < |s| ==> IsSpace(s[i])
  {
    if forall i :: 0 <= i < |s| ==> IsSpace(s[i]) {
      TrimStartOfSpaces(s);
    } else {
      var k :| 0 <= k < |s| && !IsSpace(s[k]);
      var t := TrimStart(s);
      assert t != [] && !IsSpace(t[0]);
      var u := TrimEnd(t);
      assert IsSpace(t[0]) || |u| > 0;
    }
  }

  // ---------------------------------------------------------------------------
  // split / join

  /** `s.split(sep)` for a one-character separator: n separators give n + 1 parts. */
  function Split(s: string, sep: char): (parts: seq<string>)
    ensures |parts| >= 1
    ensures forall k :: 0 <= k < |parts| ==> sep !in parts[k]
    decreases |s|
  {
    if s == [] then [""]
    else
      var rest := Split(s[1..], sep);
      if s[0] == sep then [""] + rest
      else [[s[0]] + rest[0]] + rest[1..]
  }

  /** `parts.join(sep)` */
  function Join(parts: seq<string>, sep: string): string {
    if |parts| == 0 then ""
    else if |parts| == 1 then parts[0]
    else parts[0] + sep + Join(parts[1..], sep)
  }

  lemma {:induction false} JoinSplit(s: string, sep: char)
    ensures Join(Split(s, sep), [sep]) == s
    decreases |s|
  {
    if s != [] {
      var rest := Split(s[1..], sep);
      JoinSplit(s[1..], sep);
      if s[0] == sep {
        assert Split(s, sep) == [""] + rest;
        assert s == [s[0]] + s[1..];
      } else {
        var parts := Split(s, sep);
        assert parts == [[s[0]] + rest[0]] + rest[1..];
        if |rest| == 1 {
          assert s == [s[0]] + rest[0];
        } else {
          assert rest == [rest[0]] + rest[1..];
          assert Join(rest, [sep]) == rest[0] + [sep] + Join(rest[1..], [sep]);
          assert parts[1..] == rest[1..];
          assert s == [s[0]] + s[1..];
        }
      }
    }
  }

  lemma {:induction false} SplitPrefix(p: string, t: string, sep: char)
    requires sep !in p
    ensures Split(p + t, sep) == [p + Split(t, sep)[0]] + Split(t, sep)[1..]
    decreases |p|
  {
    if p != [] {
      SplitPrefix(p[1..], t, sep);
      assert (p + t)[1..] == p[1..] + t;
      assert (p + t)[0] == p[0];
      assert [p[0]] + (p[1..] + Split(t, sep)[0]) == p + Split(t, sep)[0];
    } else {
      var parts := Split(t, sep);
      assert p + t == t;
      assert p + parts[0] == parts[0];
      assert parts == [parts[0]] + parts[1..];
    }
  }

  lemma {:induction false} SplitJoin(parts: seq<string>, sep: char)
    requires |parts| >= 1
    requires forall k :: 0 <= k < |parts| ==> sep !in parts[k]
    ensures Split(Join(parts, [sep]), sep) == parts
    decreases |parts|
  {
    if |parts| == 1 {
      SplitPrefix(parts[0], "", sep);
      assert parts[0] + "" == parts[0];
    } else {
      var tail := Join(parts[1..], [sep]);
      SplitJoin(parts[1..], sep);
      assert Join(parts, [sep]) == parts[0] + ([sep] + tail);
      SplitPrefix(parts[0], [sep] + tail, sep);
      assert ([sep] + tail)[1..] == tail;
      assert Split([sep] + tail, sep) == [""] + parts[1..];
      assert parts[0] + "" == parts[0];
      assert parts == [parts[0]] + parts[1..];
    }
  }

  // ---------------------------------------------------------------------------
  // Numbers and their text

  function DigitsValue(ds: string): nat
    requires forall i :: 0 <= i < |ds| ==> IsDigit(ds[i])
  {
    if ds == [] then 0 else DigitsValue(ds[..|ds| - 1]) * 10 + DigitValue(ds[|ds| - 1])
  }

  /** The longest prefix of decimal digits. */
  function DigitPrefix(s: string): (ds: string)
    ensures |ds| <= |s| && ds == s[..|ds|]
    ensures forall i :: 0 <= i < |ds| ==> IsDigit(ds[i])
    ensures |ds| < |s| ==> !IsDigit(s[|ds|])
  {
    if s != [] && IsDigit(s[0]) then [s[0]] + DigitPrefix(s[1..]) else ""
  }

  /** `parseInt(s)` with the implicit radix 10: leading whitespace, an optional sign,
      then the longest run of decimal digits; NaN when there are no digits. */
  function ParseInt(s: string): Num {
    var t := TrimStart(s);
    var negative := t != [] && t[0] == '-';
    var body := if t != [] && (t[0] == '-' || t[0] == '+') then t[1..] else t;
    var ds := DigitPrefix(body);
    if ds == [] then NaN
    else if negative then Int(-(DigitsValue(ds) as int))
    else Int(DigitsValue(ds))
  }

  function DigitChar(d: nat): (c: char)
    requires d < 10
    ensures IsDigit(c) && DigitValue(c) == d
  {
    ('0' as int + d) as char
  }

  function NatToString(n: nat): (s: string)
    ensures |s| >= 1
    ensures forall i :: 0 <= i < |s| ==> IsDigit(s[i])
  {
    if n < 10 then [DigitChar(n)] else NatToString(n / 10) + [DigitChar(n % 10)]
  }

  /** `String(n)` for an integer. */
  function IntToString(n: int): string {
    if n < 0 then "-" + NatToString(-n) else NatToString(n)
  }

  /** `String(x)` for a nullable number, as `Array.prototype.join` renders it (null gives ""). */
  function NumText(x: Option<Num>): string {
    match x
    case None => ""
    case Some(NaN) => "NaN"
    case Some(Int(k)) => IntToString(k)
  }

  lemma {:induction false} NatToStringValue(n: nat)
    ensures DigitsValue(NatToString(n)) == n
  {
    if n >= 10 {
      NatToStringValue(n / 10);
      var s := NatToString(n);
      assert s[..|s| - 1] == NatToString(n / 10);
    }
  }

  lemma {:induction false} DigitPrefixOfDigits(s: string)
    requires forall i :: 0 <= i < |s| ==> IsDigit(s[i])
    ensures DigitPrefix(s) == s
  {
    if s != [] {
      DigitPrefixOfDigits(s[1..]);
    }
  }

  /** Rendering an integer and parsing it back gives the integer. */
  lemma ParseIntOfIntToString(n: int)
    ensures ParseInt(IntToString(n)) == Int(n)
  {
    var s := IntToString(n);
    var digits := NatToString(if n < 0 then -n else n);
    assert !IsSpace(s[0]);
    assert TrimStart(s) == s;
    if n < 0 {
      assert s[1..] == digits;
    }
    DigitPrefixOfDigits(digits);
    NatToStringValue(if n < 0 then -n else n);
  }

  /** `Number(s)` for the integer texts the application exchanges: surrounding whitespace,
      an optional sign and decimal digits; the empty (or all-blank) text is 0. */
  function ToNumber(s: string): Num {
    var t := Trim(s);
    if t == [] then Int(0)
    else
      var body := if t[0] == '-' || t[0] == '+' then t[1..] else t;
      if body != [] && DigitPrefix(body) == body then
        if t[0] == '-' then Int(-(DigitsValue(body) as int)) else Int(DigitsValue(body))
      else NaN
  }

  /** lodash `toInteger`: NaN, null and undefined become 0. */
  function ToInteger(v: JsValue): int {
    match v
    case JNull => 0
    case JNum(Int(k)) => k
    case JNum(NaN) => 0
    case JStr(s) => match ToNumber(s) { case Int(k) => k case NaN => 0 }
  }

  /** JavaScript's abstract equality `a == b` on the modelled values. */
  predicate LooseEquals(a: JsValue, b: JsValue) {
    match (a, b)
    case (JNull, JNull) => true
    case (JNum(x), JNum(y)) => LooseEqNum(Some(x), Some(y))
    case (JStr(x), JStr(y)) => x == y
    case (JNum(x), JStr(y)) => LooseEqNum(Some(x), Some(ToNumber(y)))
    case (JStr(x), JNum(y)) => LooseEqNum(Some(ToNumber(x)), Some(y))
    case _ => false
  }

  /** Whether a value is truthy in a condition. */
  predicate Truthy(v: JsValue) {
    match v
    case JNull => false
    case JNum(Int(k)) => k != 0
    case JNum(NaN) => false
    case JStr(s) => s != ""
  }

  // ---------------------------------------------------------------------------
  // Arrays

  /** A relative index as `slice` and `splice` resolve it against a length. */
  function ClampIndex(i: int, len: nat): (r: nat)
    ensures r <= len
    ensures 0 <= i <= len ==> r == i
  {
    if i < 0 then (if len + i < 0 then 0 else len + i)
    else if i > len then len
    else i
  }

  /** `s.slice(start, end)` */
  function Slice<T>(s: seq<T>, start: int, end: int): (r: seq<T>)
    ensures 0 <= start <= end <= |s| ==> r == s[start..end]
  {
    var a := ClampIndex(start, |s|);
    var b := ClampIndex(end, |s|);
    if a <= b then s[a..b] else []
  }

  /** `[...s.slice(0, i), ...s.slice(i + 1)]`, the source's way of deleting position `i`. */
  function RemoveAt<T>(s: seq<T>, i: int): (r: seq<T>)
    ensures 0 <= i < |s| ==> r == s[..i] + s[i + 1..]
    ensures i >= |s| ==> r == s
    ensures i == -1 && |s| > 0 ==> r == s[..|s| - 1] + s
    ensures -|s| <= i < -1 ==> r == s[..|s| + i] + s[|s| + i + 1..]
    ensures i < -|s| || |s| == 0 ==> r == s
  {
    Slice(s, 0, i) + Slice(s, i + 1, |s|)
  }

  /** `s.indexOf(x)`: the first position of `x`, or -1. */
  function IndexOf<T(==)>(s: seq<T>, x: T): (r: int)
    ensures -1 <= r < |s|
    ensures r == -1 <==> x !in s
    ensures r >= 0 ==> s[r] == x && x !in s[..r]
  {
    if |s| == 0 then -1
    else if s[0] == x then 0
    else
      var k := IndexOf(s[1..], x);
      if k == -1 then -1
      else
        assert s[..k + 1] == [s[0]] + s[1..][..k];
        k + 1
  }

  /** `s.splice(start, 0, x)` applied to a copy: insert `x` at the clamped position. */
  function InsertAt<T>(s: seq<T>, start: int, x: T): (r: seq<T>)
    ensures |r| == |s| + 1
    ensures r == s[..ClampIndex(start, |s|)] + [x] + s[ClampIndex(start, |s|)..]
  {
    var k := ClampIndex(start, |s|);
    s[..k] + [x] + s[k..]
  }

  /** `s.filter(x => x != v)` */
  function Without<T(==,!new)>(s: seq<T>, v: T): (r: seq<T>)
    ensures v !in r
    ensures forall x :: x in r <==> x in s && x != v
    ensures |r| <= |s|
  {
    if s == [] then []
    else if s[0] == v then Without(s[1..], v)
    else [s[0]] + Without(s[1..], v)
  }

  /** Filtering keeps every other element as often as it occurs. */
  lemma {:induction false} WithoutCounts<T(!new)>(s: seq<T>, v: T)
    ensures multiset(Without(s, v)) == multiset(s)[v := 0]
  {
    if s != [] {
      WithoutCounts(s[1..], v);
      assert s == [s[0]] + s[1..];
    }
  }

  lemma {:induction false} WithoutAbsent<T(!new)>(s: seq<T>, v: T)
    requires v !in s
    ensures Without(s, v) == s
  {
    if s != [] {
      WithoutAbsent(s[1..], v);
    }
  }

  lemma {:induction false} WithoutAppended<T(!new)>(s: seq<T>, v: T)
    ensures Without(s + [v], v) == Without(s, v)
  {
    WithoutAppend(s, [v], v);
    assert [v][1..] == [];
    assert Without(s, v) + [] == Without(s, v);
  }

  /** Filtering distributes over concatenation, so the kept elements stay in their order. */
  lemma {:induction false} WithoutAppend<T(!new)>(a: seq<T>, b: seq<T>, v: T)
    ensures Without(a + b, v) == Without(a, v) + Without(b, v)
  {
    if a == [] {
      assert a + b == b;
    } else {
      assert (a + b)[0] == a[0];
      assert (a + b)[1..] == a[1..] + b;
      WithoutAppend(a[1..], b, v);
    }
  }
}
