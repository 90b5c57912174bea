/** Splitting, joining and decimal text, as the Rust standard library does them. */
module Text {
  import opened Wrappers

  const U64_MAX: nat := 0xFFFF_FFFF_FFFF_FFFF

  // ----- split and join

  /** `str::split` with a one-character pattern: always at least one piece. */
  function Split(s: string, c: char): (parts: seq<string>)
    ensures |parts| > 0
  {
    if s == [] then [[]]
    else
      var rest := Split(s[1..], c);
      if s[0] == c then [[]] + rest
      else [[s[0]] + rest[0]] + rest[1..]
  }

  /** `[T]::join` with a one-character separator. */
  function Join(parts: seq<string>, c: char): string {
    if parts == [] then []
    else if |parts| == 1 then parts[0]
    else parts[0] + [c] + Join(parts[1..], c)
  }

  predicate Free(s: string, c: char) {
    c !in s
  }

  lemma {:induction false} SplitFree(s: string, c: char)
    requires Free(s, c)
    ensures Split(s, c) == [s]
  {
    if s != [] {
      SplitFree(s[1..], c);
      assert [s[0]] + s[1..] == s;
    }
  }

  lemma {:induction false} SplitFirst(p: string, c: char, rest: string)
    requires Free(p, c)
    ensures Split(p + [c] + rest, c) == [p] + Split(rest, c)
  {
    var s := p + [c] + rest;
    if p == [] {
      assert s[1..] == rest;
    } else {
      assert s[1..] == p[1..] + [c] + rest;
      SplitFirst(p[1..], c, rest);
      assert [s[0]] + p[1..] == p;
    }
  }

  /** Splitting undoes joining, for one piece or more, none of which contains the separator. */
  lemma {:induction false} SplitJoin(parts: seq<string>, c: char)
    requires parts != [] && forall p :: p in parts ==> Free(p, c)
    ensures Split(Join(parts, c), c) == parts
  {
    if |parts| == 1 {
      SplitFree(parts[0], c);
    } else {
      SplitJoin(parts[1..], c);
      SplitFirst(parts[0], c, Join(parts[1..], c));
    }
  }

  lemma {:induction false} JoinFree(parts: seq<string>, sep: char, c: char)
    requires sep != c && forall p :: p in parts ==> Free(p, c)
    ensures Free(Join(parts, sep), c)
  {
    if parts != [] {
      assert Free(parts[0], c);
    }
    if |parts| > 1 {
      JoinFree(parts[1..], sep, c);
    }
  }

  /** Joining undoes splitting, and no piece contains the separator. */
  lemma {:induction false} JoinSplit(s: string, c: char)
    ensures Join(Split(s, c), c) == s && forall p :: p in Split(s, c) ==> Free(p, c)
  {
    if s != [] {
      var rest := Split(s[1..], c);
      JoinSplit(s[1..], c);
      if s[0] == c {
        assert Join([[]] + rest, c) == [] + [c] + Join(rest, c);
        assert s == [c] + s[1..];
      } else {
        JoinGrowsFirst(rest, s[0], c);
        assert s == [s[0]] + s[1..];
        assert rest[0] in rest && Free(rest[0], c);
      }
    }
  }

  lemma JoinGrowsFirst(parts: seq<string>, d: char, c: char)
    requires parts != []
    ensures Join([[d] + parts[0]] + parts[1..], c) == [d] + Join(parts, c)
  {
    var grown := [[d] + parts[0]] + parts[1..];
    if |parts| > 1 {
      assert grown[1..] == parts[1..];
      assert ([d] + parts[0]) + [c] + Join(parts[1..], c) == [d] + (parts[0] + [c] + Join(parts[1..], c));
    }
  }

  // ----- decimal numbers

  predicate IsDigit(c: char) {
    '0' <= c <= '9'
  }

  /** `to_string` of an unsigned integer. */
  function Decimal(n: nat): (s: string)
    ensures |s| > 0 && forall c :: c in s ==> IsDigit(c)
  {
    var last := [('0' as int + n % 10) as char];
    if n < 10 then last else Decimal(n / 10) + last
  }

  function DigitsValue(s: string): nat
    requires forall c :: c in s ==> IsDigit(c)
  {
    if s == [] then 0
    else
      assert IsDigit(s[|s| - 1]);
      DigitsValue(s[..|s| - 1]) * 10 + (s[|s| - 1] as int - '0' as int)
  }

  /** `str::parse` to an unsigned integer: an optional plus sign, then digits, refused beyond `max`. */
  function ParseUnsigned(s: string, max: nat): Option<nat> {
    var digits := if s != [] && s[0] == '+' then s[1..] else s;
    if digits == [] || exists c :: c in digits && !IsDigit(c) then None
    else if DigitsValue(digits) > max then None
    else Some(DigitsValue(digits))
  }

  lemma {:induction false} DecimalValue(n: nat)
    ensures DigitsValue(Decimal(n)) == n
  {
    if n >= 10 {
      DecimalValue(n / 10);
      assert Decimal(n)[..|Decimal(n)| - 1] == Decimal(n / 10);
    }
  }

  /** Parsing undoes printing exactly for the numbers the target type can hold. */
  lemma ParseDecimal(n: nat, max: nat)
    ensures ParseUnsigned(Decimal(n), max) == if n <= max then Some(n) else None
  {
    DecimalValue(n);
    assert IsDigit(Decimal(n)[0]);
  }

  function Zeros(k: nat): (s: string)
    ensures |s| == k && forall c :: c in s ==> c == '0'
  {
    seq(k, _ => '0')
  }

  /** The decimal digits of `v` after `k` zeros. */
  function Padded(k: nat, v: nat): string {
    Zeros(k) + Decimal(v)
  }

  /** The texts of `v`: an optional plus sign, any number of zeros, the decimal digits. */
  ghost predicate IsNumeral(s: string, v: nat) {
    exists k: nat :: s == Padded(k, v) || s == ['+'] + Padded(k, v)
  }

  lemma {:induction false} ValueSnoc(d: string, c: char)
    requires (forall x :: x in d ==> IsDigit(x)) && IsDigit(c)
    ensures (forall x :: x in d + [c] ==> IsDigit(x))
    ensures DigitsValue(d + [c]) == DigitsValue(d) * 10 + (c as int - '0' as int)
  {
    assert (d + [c])[..|d|] == d;
  }

  lemma {:induction false} LeadingZeros(k: nat, v: nat)
    ensures DigitsValue(Zeros(k) + Decimal(v)) == v
  {
    var last := [('0' as int + v % 10) as char];
    if v >= 10 {
      LeadingZeros(k, v / 10);
      assert Zeros(k) + Decimal(v) == (Zeros(k) + Decimal(v / 10)) + last;
      ValueSnoc(Zeros(k) + Decimal(v / 10), last[0]);
    } else {
      ZerosValue(k);
      ValueSnoc(Zeros(k), last[0]);
    }
  }

  lemma {:induction false} ZerosValue(k: nat)
    ensures DigitsValue(Zeros(k)) == 0
  {
    if k > 0 {
      ZerosValue(k - 1);
      assert Zeros(k) == Zeros(k - 1) + ['0'];
      ValueSnoc(Zeros(k - 1), '0');
    }
  }

  lemma {:induction false} DigitsForm(d: string) returns (k: nat)
    requires d != [] && forall c :: c in d ==> IsDigit(c)
    ensures d == Zeros(k) + Decimal(DigitsValue(d))
  {
    var before, c := d[..|d| - 1], d[|d| - 1];
    assert d == before + [c] && IsDigit(c);
    ValueSnoc(before, c);
    var digit: nat := c as int - '0' as int;
    if before == [] {
      k := 0;
      assert Zeros(0) == [] && Decimal(digit) == [c];
    } else {
      k := DigitsForm(before);
      var v := DigitsValue(before);
      if v == 0 {
        assert Zeros(k + 1) == Zeros(k) + ['0'] && Decimal(0) == ['0'];
        assert Decimal(digit) == [c];
        k := k + 1;
      } else {
        assert (v * 10 + digit) / 10 == v && (v * 10 + digit) % 10 == digit;
        assert Decimal(v * 10 + digit) == Decimal(v) + [c];
      }
    }
  }

  /** Parsing accepts exactly the texts of the numbers the target type holds, and gives their value. */
  lemma ParseMeaning(s: string, max: nat, v: nat)
    ensures ParseUnsigned(s, max) == Some(v) <==> v <= max && IsNumeral(s, v)
  {
    if ParseUnsigned(s, max) == Some(v) {
      var digits := if s[0] == '+' then s[1..] else s;
      var k := DigitsForm(digits);
      assert digits == Padded(k, v);
      assert s[0] == '+' ==> s == ['+'] + digits;
    }
    if IsNumeral(s, v) {
      var k: nat :| s == Padded(k, v) || s == ['+'] + Padded(k, v);
      PaddedParses(k, v);
      assert s == ['+'] + Padded(k, v) ==> s[0] == '+' && s[1..] == Padded(k, v);
    }
  }

  lemma PaddedParses(k: nat, v: nat)
    ensures var digits := Padded(k, v);
            && digits != [] && digits[0] != '+' && (forall c :: c in digits ==> IsDigit(c)) && DigitsValue(digits) == v
  {
    LeadingZeros(k, v);
    assert IsDigit(Padded(k, v)[0]);
  }

  /** For instance. */
  lemma DecimalExample()
    ensures Decimal(1204) == "1204"
  {
    assert Decimal(1) == "1";
    assert Decimal(12) == "12";
    assert Decimal(120) == "120";
  }
}
