/** The slice of PHP's loosely typed values that the plugin's rules look at:
    scalars, `null`, and ordered arrays with string keys.  The functions here
    are the language built-ins the plugin leans on (`empty`, `intval`,
    `isset`, `array_merge`, `strtolower`, `strtoupper`) and the decimal
    rendering PHP uses when it turns an integer into a string. */
module PhpValue {
  import opened Wrappers

  /** A PHP value.  An array is an ordered list of (key, value) entries;
      PHP guarantees its keys are distinct (see `UniqueKeys`). */
  datatype Value =
    | Null
    | Bool(b: bool)
    | Int(i: int)
    | Str(s: string)
    | Arr(entries: seq<(string, Value)>)

  type PhpArray = seq<(string, Value)>

  /** PHP's `empty()`: null, false, 0, "", "0" and the empty array. */
  predicate Empty(v: Value) {
    match v
    case Null => true
    case Bool(b) => !b
    case Int(i) => i == 0
    case Str(s) => s == "" || s == "0"
    case Arr(e) => |e| == 0
  }

  /** `empty()` on a string. */
  predicate EmptyString(s: string) {
    s == "" || s == "0"
  }

  // ---------------------------------------------------------------------
  // Arrays
  // ---------------------------------------------------------------------

  /** The invariant every PHP array keeps: no key occurs twice. */
  ghost predicate UniqueKeys(a: PhpArray) {
    forall i, j :: 0 <= i < j < |a| ==> a[i].0 != a[j].0
  }

  predicate HasKey(a: PhpArray, k: string) {
    exists i :: 0 <= i < |a| && a[i].0 == k
  }

  /** `$a[$k]` read inside `isset`/`empty`/`??`: the entry's value, or null
      when the key is absent. */
  function Lookup(a: PhpArray, k: string): (v: Value)
    ensures !HasKey(a, k) ==> v == Null
  {
    if |a| == 0 then Null
    else if a[0].0 == k then a[0].1
    else Lookup(a[1..], k)
  }

  /** In an array with distinct keys, looking a key up finds its entry. */
  lemma {:induction false} LookupAt(a: PhpArray, i: nat)
    requires UniqueKeys(a) && i < |a|
    ensures Lookup(a, a[i].0) == a[i].1
  {
    if i > 0 {
      assert a[1..][i - 1] == a[i];
      LookupAt(a[1..], i - 1);
    }
  }

  /** A present key is found at one of its entries (the first one). */
  lemma {:induction false} LookupWitness(a: PhpArray, k: string) returns (i: nat)
    requires HasKey(a, k)
    ensures i < |a| && a[i].0 == k && Lookup(a, k) == a[i].1
  {
    if a[0].0 == k {
      i := 0;
    } else {
      var m :| 0 <= m < |a| && a[m].0 == k;
      assert a[1..][m - 1].0 == k;
      var i' := LookupWitness(a[1..], k);
      i := i' + 1;
    }
  }

  /** `isset($a[$k])`: the key is present and its value is not null. */
  predicate IsSet(a: PhpArray, k: string) {
    Lookup(a, k) != Null
  }

  /** `$v[$k]` where `$v` may not be an array: anything that is not an array
      yields null in the `empty()`/`isset()` contexts the plugin uses. */
  function Index(v: Value, k: string): Value {
    match v
    case Arr(e) => Lookup(e, k)
    case _ => Null
  }

  /** `$a[$k] = $v`: an existing key keeps its position and takes the new
      value; a new key is appended at the end. */
  function Put(a: PhpArray, k: string, v: Value): (r: PhpArray)
    ensures HasKey(a, k) ==> |r| == |a|
    ensures !HasKey(a, k) ==> r == a + [(k, v)]
    ensures Lookup(r, k) == v
    ensures forall j {:trigger Lookup(r, j)} :: j != k ==> Lookup(r, j) == Lookup(a, j)
  {
    if |a| == 0 then [(k, v)]
    else if a[0].0 == k then [(k, v)] + a[1..]
    else [a[0]] + Put(a[1..], k, v)
  }

  /** Writing an entry's own value back changes nothing. */
  lemma {:induction false} PutSame(a: PhpArray, i: nat)
    requires UniqueKeys(a) && i < |a|
    ensures Put(a, a[i].0, a[i].1) == a
  {
    var k := a[i].0;
    if i > 0 {
      assert a[0].0 != k;
      var rest := a[1..];
      assert rest[i - 1] == a[i];
      assert UniqueKeys(rest);
      PutSame(rest, i - 1);
      assert Put(a, k, a[i].1) == [a[0]] + Put(rest, k, a[i].1);
    }
    assert a == [a[0]] + a[1..];
  }

  /** Where `Put` leaves things: every old entry keeps its place and key,
      an entry under another key keeps its value, and `(k, v)` is somewhere
      in the result; every entry of the result is `(k, v)` or an old entry
      in its old place. */
  lemma PutPositions(a: PhpArray, k: string, v: Value)
    ensures |Put(a, k, v)| >= |a|
    ensures forall i :: 0 <= i < |a| ==> Put(a, k, v)[i].0 == a[i].0
    ensures forall i :: 0 <= i < |a| && a[i].0 != k ==> Put(a, k, v)[i] == a[i]
    ensures exists i :: 0 <= i < |Put(a, k, v)| && Put(a, k, v)[i] == (k, v)
    ensures forall i :: 0 <= i < |Put(a, k, v)| ==> Put(a, k, v)[i] == (k, v) || (i < |a| && Put(a, k, v)[i] == a[i])
  {
    PutKeepsPlaces(a, k, v);
    PutEntries(a, k, v);
  }

  /** `Put` keeps every old entry's place and key, and the value of every
      entry under another key. */
  lemma {:induction false} PutKeepsPlaces(a: PhpArray, k: string, v: Value)
    ensures |Put(a, k, v)| >= |a|
    ensures forall i :: 0 <= i < |a| ==> Put(a, k, v)[i].0 == a[i].0
    ensures forall i :: 0 <= i < |a| && a[i].0 != k ==> Put(a, k, v)[i] == a[i]
  {
    if |a| > 0 && a[0].0 != k {
      var rest := a[1..];
      PutKeepsPlaces(rest, k, v);
      var r := Put(a, k, v);
      var r' := Put(rest, k, v);
      assert r == [a[0]] + r';
      forall i | 0 < i < |a|
        ensures r[i] == r'[i - 1] && a[i] == rest[i - 1]
      {
      }
    }
  }

  /** The entries after `Put`: `(k, v)` is among them, and each is `(k, v)`
      or an old entry in its old place. */
  lemma {:induction false} PutEntries(a: PhpArray, k: string, v: Value)
    ensures exists i :: 0 <= i < |Put(a, k, v)| && Put(a, k, v)[i] == (k, v)
    ensures forall i :: 0 <= i < |Put(a, k, v)| ==> Put(a, k, v)[i] == (k, v) || (i < |a| && Put(a, k, v)[i] == a[i])
  {
    var r := Put(a, k, v);
    if |a| > 0 && a[0].0 != k {
      var rest := a[1..];
      PutEntries(rest, k, v);
      var r' := Put(rest, k, v);
      assert r == [a[0]] + r';
      forall i | 0 < i < |r|
        ensures r[i] == r'[i - 1] && (i < |a| ==> a[i] == rest[i - 1])
      {
      }
      var m :| 0 <= m < |r'| && r'[m] == (k, v);
      assert r[m + 1] == (k, v);
    } else {
      assert r[0] == (k, v);
    }
  }

    /** After `Put` the keys are the old keys and `k`. */
  lemma PutHasKey(a: PhpArray, k: string, v: Value, j: string)
    ensures HasKey(Put(a, k, v), j) <==> HasKey(a, j) || j == k
  {
    PutPositions(a, k, v);
    var r := Put(a, k, v);
    if HasKey(a, j) {
      var i :| 0 <= i < |a| && a[i].0 == j;
      assert r[i].0 == j;
    }
    if j == k {
      var i :| 0 <= i < |r| && r[i] == (k, v);
      assert r[i].0 == j;
    }
  }

  /** A key that is new to `rest` can go in front of it. */
  lemma ConsUnique(e: (string, Value), rest: PhpArray)
    requires UniqueKeys(rest) && !HasKey(rest, e.0)
    ensures UniqueKeys([e] + rest)
  {
    var r := [e] + rest;
    forall i, j | 0 <= i < j < |r|
      ensures r[i].0 != r[j].0
    {
      assert r[j] == rest[j - 1];
      if i > 0 {
        assert r[i] == rest[i - 1];
      }
    }
  }

  /** `Put` keeps the keys distinct. */
  lemma {:induction false} PutUnique(a: PhpArray, k: string, v: Value)
    requires UniqueKeys(a)
    ensures UniqueKeys(Put(a, k, v))
  {
    if |a| == 0 {
    } else if a[0].0 == k {
      var rest := a[1..];
      assert UniqueKeys(rest);
      forall m | 0 <= m < |rest|
        ensures rest[m].0 != k
      {
        assert rest[m] == a[m + 1];
      }
      ConsUnique((k, v), rest);
    } else {
      var rest := a[1..];
      assert UniqueKeys(rest);
      PutUnique(rest, k, v);
      forall m | 0 <= m < |rest|
        ensures rest[m].0 != a[0].0
      {
        assert rest[m] == a[m + 1];
      }
      PutHasKey(rest, k, v, a[0].0);
      ConsUnique(a[0], Put(rest, k, v));
    }
  }

  /** Keys of `Put`, all at once. */
  lemma PutShape(a: PhpArray, k: string, v: Value)
    ensures forall i :: 0 <= i < |a| ==> Put(a, k, v)[i].0 == a[i].0
    ensures forall j :: HasKey(Put(a, k, v), j) <==> HasKey(a, j) || j == k
    ensures UniqueKeys(a) ==> UniqueKeys(Put(a, k, v))
  {
    PutPositions(a, k, v);
    forall j
      ensures HasKey(Put(a, k, v), j) <==> HasKey(a, j) || j == k
    {
      PutHasKey(a, k, v, j);
    }
    if UniqueKeys(a) {
      PutUnique(a, k, v);
    }
  }

  /** PHP's `array_merge($a, $b)` on string-keyed arrays: the entries of `b`
      overwrite equal keys of `a` in place and new keys are appended in `b`'s
      order. */
  function Merge(a: PhpArray, b: PhpArray): (r: PhpArray)
    decreases |b|
  {
    if |b| == 0 then a else Merge(Put(a, b[0].0, b[0].1), b[1..])
  }

  /** `array_merge` keeps the keys of `a` in their places and adds those of
      `b`. */
  lemma {:induction false} MergeShape(a: PhpArray, b: PhpArray)
    ensures |Merge(a, b)| >= |a|
    ensures forall i :: 0 <= i < |a| ==> Merge(a, b)[i].0 == a[i].0
    ensures forall k :: HasKey(Merge(a, b), k) <==> HasKey(a, k) || HasKey(b, k)
    ensures UniqueKeys(a) ==> UniqueKeys(Merge(a, b))
    decreases |b|
  {
    if |b| > 0 {
      var a' := Put(a, b[0].0, b[0].1);
      PutShape(a, b[0].0, b[0].1);
      MergeShape(a', b[1..]);
      forall k
        ensures HasKey(b, k) <==> k == b[0].0 || HasKey(b[1..], k)
      {
        if HasKey(b, k) && k != b[0].0 {
          var i :| 0 <= i < |b| && b[i].0 == k;
          assert b[1..][i - 1].0 == k;
        }
        if HasKey(b[1..], k) {
          var i :| 0 <= i < |b[1..]| && b[1..][i].0 == k;
          assert b[i + 1].0 == k;
        }
      }
    }
  }

  /** What `array_merge` promises about every key: `b` wins where it has the
      key, `a` is kept elsewhere. */
  lemma {:induction false} MergeLookup(a: PhpArray, b: PhpArray, k: string)
    requires UniqueKeys(b)
    ensures Lookup(Merge(a, b), k) == if HasKey(b, k) then Lookup(b, k) else Lookup(a, k)
    decreases |b|
  {
    if |b| > 0 {
      var a' := Put(a, b[0].0, b[0].1);
      assert UniqueKeys(b[1..]);
      MergeLookup(a', b[1..], k);
      if k == b[0].0 {
        assert !HasKey(b[1..], k);
      } else {
        assert HasKey(b, k) <==> HasKey(b[1..], k) by {
          if HasKey(b, k) {
            var i :| 0 <= i < |b| && b[i].0 == k;
            assert b[1..][i - 1].0 == k;
          }
        }
      }
    }
  }

  // ---------------------------------------------------------------------
  // Characters and case
  // ---------------------------------------------------------------------

  predicate IsDigit(c: char) {
    '0' <= c <= '9'
  }

  function DigitValue(c: char): nat
    requires IsDigit(c)
  {
    c as nat - '0' as nat
  }

  function DigitChar(d: nat): (c: char)
    requires d < 10
    ensures IsDigit(c) && DigitValue(c) == d
  {
    ('0' as nat + d) as char
  }

  /** One character of `strtolower` (byte-wise ASCII, as in PHP 8.2+). */
  function LowerChar(c: char): char {
    if 'A' <= c <= 'Z' then (c as int + 32) as char else c
  }

  function UpperChar(c: char): char {
    if 'a' <= c <= 'z' then (c as int - 32) as char else c
  }

  /** `strtolower`. */
  function Lower(s: string): (r: string)
    ensures |r| == |s|
    ensures forall i :: 0 <= i < |s| ==> r[i] == LowerChar(s[i])
  {
    seq(|s|, i requires 0 <= i < |s| => LowerChar(s[i]))
  }

  /** `strtoupper`. */
  function Upper(s: string): (r: string)
    ensures |r| == |s|
    ensures forall i :: 0 <= i < |s| ==> r[i] == UpperChar(s[i])
  {
    seq(|s|, i requires 0 <= i < |s| => UpperChar(s[i]))
  }

  // ---------------------------------------------------------------------
  // Integers and their decimal form
  // ---------------------------------------------------------------------

  /** The six ASCII whitespace characters: what `intval` skips before a
      number and what PCRE's `\s` matches on a byte string. */
  predicate AsciiSpace(c: char) {
    c == ' ' || c == '\t' || c == '\n' || c == '\r' || c == '\U{000B}' || c == '\U{000C}'
  }

  function SkipSpace(s: string): (r: string)
    ensures |r| <= |s|
    ensures |r| > 0 ==> !AsciiSpace(r[0])
  {
    if |s| > 0 && AsciiSpace(s[0]) then SkipSpace(s[1..]) else s
  }

  /** The longest prefix of `s` made of decimal digits. */
  function TakeDigits(s: string): (r: string)
    ensures |r| <= |s| && r == s[..|r|]
    ensures forall i :: 0 <= i < |r| ==> IsDigit(r[i])
    ensures |r| < |s| ==> !IsDigit(s[|r|])
  {
    if |s| > 0 && IsDigit(s[0]) then [s[0]] + TakeDigits(s[1..]) else []
  }

  /** The value of a string of decimal digits, most significant first. */
  function DigitsValue(d: string): nat
    requires forall i :: 0 <= i < |d| ==> IsDigit(d[i])
  {
    if |d| == 0 then 0 else 10 * DigitsValue(d[..|d| - 1]) + DigitValue(d[|d| - 1])
  }

  /** `10` to the power `n`. */
  function Pow10(n: nat): (p: nat)
    ensures p >= 1
  {
    if n == 0 then 1 else 10 * Pow10(n - 1)
  }

  /** The exponent at the start of `s` (`e12`, `E-3`, `e+4`), or `None` when
      `s` does not start with one; an `e` and a sign with no digit after
      them are not an exponent. */
  function ExponentPart(s: string): (e: Option<int>)
    ensures e.Some? ==> |s| >= 2 && (s[0] == 'e' || s[0] == 'E')
  {
    if |s| < 2 || (s[0] != 'e' && s[0] != 'E') then None
    else if s[1] == '-' then
      match ExponentDigits(s[2..])
      case None => None
      case Some(n) => Some(0 - n)
    else if s[1] == '+' then ExponentDigits(s[2..])
    else ExponentDigits(s[1..])
  }

  /** The digits of an exponent, when there is at least one. */
  function ExponentDigits(t: string): Option<int> {
    var digits := TakeDigits(t);
    if |digits| == 0 then None else Some(DigitsValue(digits))
  }

  /** `m * 10^(e - scale)` truncated toward zero: the integer part of the
      decimal number whose digits are `m`, `scale` of them after the point,
      times `10^e`. */
  function Scaled(m: nat, scale: nat, e: int): int {
    if e >= scale then m * Pow10(e - scale) else m / Pow10(scale - e)
  }

  /** The number at the start of `t`, with no sign, truncated to an
      integer: decimal digits, then optionally a `.` and more digits (at
      least one digit in all), then optionally an exponent.  A bare run of
      digits is read as an integer, anything with a point or an exponent as
      a decimal number; 0 when `t` does not start with a number. */
  function UnsignedPrefix(t: string): int {
    var whole := TakeDigits(t);
    NumberFrom(whole, t[|whole|..])
  }

  /** The number whose integer digits are `whole` and whose text goes on
      with `rest`. */
  function NumberFrom(whole: string, rest: string): int
    requires forall i :: 0 <= i < |whole| ==> IsDigit(whole[i])
  {
    if |rest| > 0 && rest[0] == '.' then
      var frac := TakeDigits(rest[1..]);
      if |whole| + |frac| == 0 then 0
      else Scaled(DigitsValue(whole + frac), |frac|, ExponentPart(rest[1 + |frac|..]).GetOr(0))
    else if |whole| == 0 then 0
    else match ExponentPart(rest)
      case None => DigitsValue(whole)
      case Some(e) => Scaled(DigitsValue(whole), 0, e)
  }

  /** `intval` of a string (PHP 7.1 and later): leading whitespace is
      skipped, an optional sign is read, and the leading number after it is
      converted with truncation toward zero; whatever follows the number is
      ignored, and a string that does not start with one gives 0. */
  function ParseLeadingInt(s: string): int {
    var t := SkipSpace(s);
    if |t| > 0 && t[0] == '-' then 0 - UnsignedPrefix(t[1..])
    else if |t| > 0 && t[0] == '+' then UnsignedPrefix(t[1..])
    else UnsignedPrefix(t)
  }

  /** A character that can open a number after the whitespace. */
  predicate StartsNumber(c: char) {
    IsDigit(c) || c == '+' || c == '-' || c == '.'
  }

  /** PHP's `intval()` / `(int)` cast.  Every value `empty()` calls empty
      reads as 0, and so does a string that does not start with a number. */
  function IntVal(v: Value): (r: int)
    ensures Empty(v) ==> r == 0
    ensures v.Str? && |v.s| > 0 && !AsciiSpace(v.s[0]) && !StartsNumber(v.s[0]) ==> r == 0
  {
    match v
    case Null => 0
    case Bool(b) => if b then 1 else 0
    case Int(i) => i
    case Str(s) =>
      assert s == "0" ==> TakeDigits(s) == s && DigitsValue(s) == 0;
      ParseLeadingInt(s)
    case Arr(e) => if |e| == 0 then 0 else 1
  }

  /** A string of decimal digits. */
  predicate AllDigits(d: string) {
    forall i :: 0 <= i < |d| ==> IsDigit(d[i])
  }

  /** A string whose first character cannot continue a run of digits. */
  predicate EndsDigits(rest: string) {
    |rest| == 0 || !IsDigit(rest[0])
  }

  /** `TakeDigits` stops exactly where the run of digits ends. */
  lemma {:induction false} TakeDigitsOfRun(d: string, rest: string)
    requires AllDigits(d) && EndsDigits(rest)
    ensures TakeDigits(d + rest) == d
  {
    if |d| > 0 {
      assert (d + rest)[1..] == d[1..] + rest;
      TakeDigitsOfRun(d[1..], rest);
      assert d == [d[0]] + d[1..];
    } else {
      assert d + rest == rest;
    }
  }

  /** The value of digits written one after the other. */
  lemma {:induction false} DigitsValueAppend(a: string, b: string)
    requires AllDigits(a) && AllDigits(b)
    ensures DigitsValue(a + b) == DigitsValue(a) * Pow10(|b|) + DigitsValue(b)
    decreases |b|
  {
    if |b| == 0 {
      assert a + b == a;
    } else {
      var b' := b[..|b| - 1];
      assert (a + b)[..|a + b| - 1] == a + b';
      assert (a + b)[|a + b| - 1] == b[|b| - 1];
      DigitsValueAppend(a, b');
      ShiftDigit(DigitsValue(a), Pow10(|b'|), DigitsValue(b'), DigitValue(b[|b| - 1]));
    }
  }

  /** Appending one digit: the arithmetic step of `DigitsValueAppend`. */
  lemma ShiftDigit(x: int, p: int, y: int, c: int)
    ensures 10 * (x * p + y) + c == x * (10 * p) + (10 * y + c)
  {
    assert 10 * (x * p) == x * (10 * p);
  }

  /** `n` digits are worth less than `10^n`. */
  lemma {:induction false} DigitsValueBound(d: string)
    requires AllDigits(d)
    ensures DigitsValue(d) < Pow10(|d|)
  {
    if |d| > 0 {
      DigitsValueBound(d[..|d| - 1]);
    }
  }

  /** Integer division undoes `q * p + r` for a remainder below `p`. */
  lemma DivOfSum(q: nat, r: nat, p: nat)
    requires r < p
    ensures (q * p + r) / p == q
  {
    var n := q * p + r;
    var d := n / p;
    assert (d - q) * p == r - n % p;
    MulSign(d - q, p);
  }

  /** A multiple of a positive `p` other than 0 is at least `p` away
      from 0. */
  lemma MulSign(k: int, p: int)
    requires p > 0
    ensures k >= 1 ==> k * p >= p
    ensures k <= -1 ==> k * p <= 0 - p
  {
    assert k * p == (k - 1) * p + p;
    assert k * p == (k + 1) * p - p;
  }

  /** Past the whitespace and the sign, `intval` reads the unsigned number. */
  lemma IntValUnsigned(t: string)
    requires |t| > 0 && !AsciiSpace(t[0]) && t[0] != '-' && t[0] != '+'
    ensures IntVal(Str(t)) == UnsignedPrefix(t)
  {
    assert SkipSpace(t) == t;
  }

  /** Where the leading digits of `s` stop at `n`, the number is read from
      there on. */
  lemma UnsignedAt(s: string, n: nat)
    requires n <= |s| && AllDigits(s[..n]) && EndsDigits(s[n..])
    ensures UnsignedPrefix(s) == NumberFrom(s[..n], s[n..])
  {
    assert s[..n] + s[n..] == s;
    TakeDigitsOfRun(s[..n], s[n..]);
  }

  /** The digits of an exponent, read up to the first character that is
      not a digit. */
  lemma ExponentDigitsAt(t: string, m: nat)
    requires 0 < m <= |t| && AllDigits(t[..m]) && EndsDigits(t[m..])
    ensures ExponentDigits(t) == Some(DigitsValue(t[..m]))
  {
    assert t[..m] + t[m..] == t;
    TakeDigitsOfRun(t[..m], t[m..]);
  }

  /** A leading run of digits followed by neither a point, nor a digit,
      nor an exponent is read as that integer. */
  lemma IntValOfInteger(s: string, n: nat)
    requires 0 < n <= |s| && AllDigits(s[..n]) && EndsDigits(s[n..])
    requires (n == |s| || s[n] != '.') && ExponentPart(s[n..]).None?
    ensures IntVal(Str(s)) == DigitsValue(s[..n])
  {
    assert s[..n][0] == s[0];
    IntValUnsigned(s);
    UnsignedAt(s, n);
  }

  /** The digits after a decimal point are cut off: `"12.9"` reads as 12. */
  lemma IntValOfFraction(s: string, n: nat, m: nat)
    requires 0 < n < m <= |s| && s[n] == '.'
    requires AllDigits(s[..n]) && AllDigits(s[n + 1..m]) && EndsDigits(s[m..])
    requires ExponentPart(s[m..]).None?
    ensures IntVal(Str(s)) == DigitsValue(s[..n])
  {
    assert s[..n][0] == s[0];
    IntValUnsigned(s);
    UnsignedAt(s, n);
    var whole, tail, frac := s[..n], s[n..], s[n + 1..m];
    FractionDigits(s, n, m);
    assert NumberFrom(whole, tail) == Scaled(DigitsValue(whole + frac), |frac|, 0);
    FractionDropped(whole, frac);
  }

  /** Truncation drops the fraction digits. */
  lemma FractionDropped(whole: string, frac: string)
    requires |whole| > 0 && AllDigits(whole) && AllDigits(frac)
    ensures Scaled(DigitsValue(whole + frac), |frac|, 0) == DigitsValue(whole)
  {
    DigitsValueAppend(whole, frac);
    DigitsValueBound(frac);
    DivOfSum(DigitsValue(whole), DigitsValue(frac), Pow10(|frac|));
    if |frac| == 0 {
      assert whole + frac == whole;
    }
  }

  /** The fraction digits of `IntValOfFraction` and what follows them. */
  lemma FractionDigits(s: string, n: nat, m: nat)
    requires 0 < n < m <= |s| && s[n] == '.'
    requires AllDigits(s[n + 1..m]) && EndsDigits(s[m..])
    ensures var tail := s[n..];
      TakeDigits(tail[1..]) == s[n + 1..m] && tail[1 + (m - n - 1)..] == s[m..]
  {
    var tail, frac := s[n..], s[n + 1..m];
    assert tail[1..] == frac + s[m..];
    TakeDigitsOfRun(frac, s[m..]);
  }

  /** A positive exponent multiplies: `"1e3"` reads as 1000. */
  lemma IntValOfExponent(s: string, n: nat, m: nat)
    requires 0 < n && n + 1 < m <= |s| && s[n] == 'e'
    requires AllDigits(s[..n]) && AllDigits(s[n + 1..m]) && EndsDigits(s[m..])
    ensures IntVal(Str(s)) == DigitsValue(s[..n]) * Pow10(DigitsValue(s[n + 1..m]))
  {
    assert s[..n][0] == s[0];
    IntValUnsigned(s);
    UnsignedAt(s, n);
    var tail := s[n..];
    ExponentAt(s, n, m);
    var e := DigitsValue(s[n + 1..m]);
    assert NumberFrom(s[..n], tail) == Scaled(DigitsValue(s[..n]), 0, e);
    ScaledUp(DigitsValue(s[..n]), e);
  }

  /** The unsigned exponent of `IntValOfExponent`. */
  lemma ExponentAt(s: string, n: nat, m: nat)
    requires n + 1 < m <= |s| && s[n] == 'e'
    requires AllDigits(s[n + 1..m]) && EndsDigits(s[m..])
    ensures ExponentPart(s[n..]) == Some(DigitsValue(s[n + 1..m]))
  {
    var tail := s[n..];
    assert tail[1] == s[n + 1..m][0];
    assert tail[1..][..m - n - 1] == s[n + 1..m] && tail[1..][m - n - 1..] == s[m..];
    ExponentDigitsAt(tail[1..], m - n - 1);
  }

  /** A non-negative exponent with no fraction digits multiplies. */
  lemma ScaledUp(m: nat, e: nat)
    ensures Scaled(m, 0, e) == m * Pow10(e)
  {
  }

  /** A negative exponent divides and the result is truncated: `"5e-1"`
      reads as 0 and `"25e-1"` as 2. */
  lemma IntValOfNegativeExponent(s: string, n: nat, m: nat)
    requires 0 < n && n + 2 < m <= |s| && s[n] == 'e' && s[n + 1] == '-'
    requires AllDigits(s[..n]) && AllDigits(s[n + 2..m]) && EndsDigits(s[m..])
    requires DigitsValue(s[n + 2..m]) > 0
    ensures IntVal(Str(s)) == DigitsValue(s[..n]) / Pow10(DigitsValue(s[n + 2..m]))
  {
    assert s[..n][0] == s[0];
    IntValUnsigned(s);
    UnsignedAt(s, n);
    var tail := s[n..];
    assert tail[2..][..m - n - 2] == s[n + 2..m] && tail[2..][m - n - 2..] == s[m..];
    ExponentDigitsAt(tail[2..], m - n - 2);
  }

  /** A leading minus sign negates the number that follows it. */
  lemma IntValNegates(t: string)
    requires |t| > 0 && !AsciiSpace(t[0]) && t[0] != '-' && t[0] != '+'
    ensures IntVal(Str("-" + t)) == 0 - IntVal(Str(t))
  {
    assert ("-" + t)[1..] == t;
    IntValUnsigned(t);
  }

  /** `"1e3"` is a thousand to `intval`, not 1. */
  lemma IntValReadsExponent(s: string)
    requires s == "1e3"
    ensures IntVal(Str(s)) == 1000
  {
    assert s[..1] == "1" && s[2..3] == "3" && s[3..] == "";
    IntValOfExponent(s, 1, 3);
  }

  /** `"1e1"` is ten to `intval`. */
  lemma IntValReadsTen(s: string)
    requires s == "1e1"
    ensures IntVal(Str(s)) == 10
  {
    assert s[..1] == "1" && s[2..3] == "1" && s[3..] == "";
    IntValOfExponent(s, 1, 3);
  }

  /** `"5e-1"` is a half, truncated to 0, not 5. */
  lemma IntValReadsHalf(s: string)
    requires s == "5e-1"
    ensures IntVal(Str(s)) == 0
  {
    assert s[..1] == "5" && s[3..4] == "1" && s[4..] == "";
    IntValOfNegativeExponent(s, 1, 4);
  }

  /** `"12.9"` is truncated to 12. */
  lemma IntValReadsFraction(s: string)
    requires s == "12.9"
    ensures IntVal(Str(s)) == 12
  {
    assert s[..2] == "12" && s[3..4] == "9" && s[4..] == "";
    assert DigitsValue("12") == 12 by {
      assert "12"[..1] == "1";
    }
    IntValOfFraction(s, 2, 4);
  }

  /** Decimal digits of a natural number, most significant first. */
  function NatDecimal(n: nat): (r: string)
    ensures |r| > 0
    ensures forall i :: 0 <= i < |r| ==> IsDigit(r[i])
  {
    if n < 10 then [DigitChar(n)] else NatDecimal(n / 10) + [DigitChar(n % 10)]
  }

  /** The string PHP produces for an integer (`(string) $n`). */
  function Decimal(n: int): (r: string)
    ensures |r| > 0
  {
    if n < 0 then "-" + NatDecimal(-n) else NatDecimal(n)
  }

  lemma {:induction false} NatDecimalValue(n: nat)
    ensures DigitsValue(NatDecimal(n)) == n
    decreases n
  {
    if n >= 10 {
      var d := NatDecimal(n);
      assert d[..|d| - 1] == NatDecimal(n / 10);
      NatDecimalValue(n / 10);
    }
  }

  lemma {:induction false} TakeAllDigits(s: string)
    requires forall i :: 0 <= i < |s| ==> IsDigit(s[i])
    ensures TakeDigits(s) == s
  {
    if |s| > 0 {
      TakeAllDigits(s[1..]);
    }
  }

  /** Rendering an integer in decimal and reading it back with `intval`
      gives the same integer. */
  lemma DecimalRoundTrip(n: int)
    ensures IntVal(Str(Decimal(n))) == n
  {
    var m: nat := if n < 0 then -n else n;
    var d := NatDecimal(m);
    TakeAllDigits(d);
    NatDecimalValue(m);
    assert d[|d|..] == "";
    if n < 0 {
      assert SkipSpace("-" + d) == "-" + d;
      assert ("-" + d)[1..] == d;
    } else {
      assert SkipSpace(d) == d;
    }
  }
}
