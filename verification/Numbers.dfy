/** Printing an integer (number, of vsprintf) and reading it back (strtol and strtoul). */
module Numbers {
  import opened Geometry

  const LONG_MAX: int := 0x7fffffff
  const LONG_MIN: int := -0x80000000
  const TWO_32: nat := 0x1_0000_0000
  const ULONG_MAX: nat := 0xffffffff

  datatype Format = Format(zeropad: bool, sign: bool, plus: bool, space: bool, left: bool, special: bool, large: bool)

  type Base = b: nat | 2 <= b <= 36 witness 10

  function DigitChar(d: nat, large: bool): (c: char)
    requires d < 36
    ensures DigitVal(c) == d
    ensures if d < 10 then '0' <= c <= '9' else if large then 'A' <= c <= 'Z' else 'a' <= c <= 'z'
  {
    if d < 10 then '0' + d as char else (if large then 'A' else 'a') + (d - 10) as char
  }

  /** The value of a digit character, -1 for any other. */
  function DigitVal(c: char): (d: int)
    ensures -1 <= d < 36
  {
    if '0' <= c <= '9' then c as int - '0' as int
    else if 'A' <= c <= 'Z' then c as int - 'A' as int + 10
    else if 'a' <= c <= 'z' then c as int - 'a' as int + 10
    else -1
  }

  /** The digits count up through 0 to 9 and through the alphabet, in either case. */
  lemma DigitsCount(c: char)
    ensures DigitVal('0') == 0 && DigitVal('A') == DigitVal('a') == 10
    ensures '0' <= c < '9' || 'A' <= c < 'Z' || 'a' <= c < 'z' ==> DigitVal((c as int + 1) as char) == DigitVal(c) + 1
    ensures DigitVal(c) == -1 <==> !('0' <= c <= '9' || 'A' <= c <= 'Z' || 'a' <= c <= 'z')
  {
  }

  predicate IsDigit(c: char, base: nat) {
    0 <= DigitVal(c) < base
  }

  predicate AllDigits(s: string, base: nat) {
    forall i | 0 <= i < |s| :: IsDigit(s[i], base)
  }

  /** The number a string of digits stands for. */
  function Value(s: string, base: Base): nat
    requires AllDigits(s, base)
  {
    if s == [] then 0 else Value(s[..|s| - 1], base) * base + DigitVal(s[|s| - 1])
  }

  function Digits(u: nat, base: Base, large: bool): (s: string)
    ensures s != []
    decreases u
  {
    if u < base then [DigitChar(u, large)]
    else
      DivLess(u, base);
      Digits(u / base, base, large) + [DigitChar(u % base, large)]
  }

  lemma DivLess(u: nat, base: Base)
    ensures u > 0 ==> 0 <= u / base < u
    ensures 0 <= u / base && u / base * 2 <= u && 0 <= u % base < base && u == u / base * base + u % base
  {
    if u > 0 {
      var q := u / base;
      assert u == base * q + u % base;
      assert base * q == 2 * q + (base - 2) * q;
      MulAtLeast(q, base - 2);
    }
  }

  lemma {:induction false} DigitsValue(u: nat, base: Base, large: bool)
    ensures AllDigits(Digits(u, base, large), base) && Value(Digits(u, base, large), base) == u
    decreases u
  {
    if u < base {
      assert Digits(u, base, large)[..0] == [];
    } else {
      DivLess(u, base);
      DigitsValue(u / base, base, large);
      var d := Digits(u / base, base, large);
      assert (d + [DigitChar(u % base, large)])[..|d|] == d;
    }
  }

  function Fill(n: int, c: char): (s: string)
    ensures |s| == if n > 0 then n else 0
  {
    if n <= 0 then [] else Fill(n - 1, c) + [c]
  }

  lemma {:induction false} FillAll(n: int, c: char)
    ensures forall i | 0 <= i < |Fill(n, c)| :: Fill(n, c)[i] == c
  {
    if n > 0 {
      FillAll(n - 1, c);
    }
  }

  lemma FillMore(n: nat, c: char)
    ensures Fill(n + 1, c) == Fill(n, c) + [c]
  {
  }

  // ----- printing

  ghost function SignOf(negative: bool, f: Format): string {
    if !f.sign then "" else if negative then "-" else if f.plus then "+" else if f.space then " " else ""
  }

  ghost function Prefix(base: nat, f: Format): string {
    if !f.special then "" else if base == 8 then "0" else if base == 16 then ['0', if f.large then 'X' else 'x'] else ""
  }

  /** What is printed: padding, sign, prefix, zeros up to the precision, digits. */
  ghost function Layout(negative: bool, u: nat, base: Base, size: int, precision: int, f: Format): string {
    var d := Digits(u, base, f.large);
    var zeros := precision - |d|;
    var pad := size - |SignOf(negative, f)| - |Prefix(base, f)| - (if precision > |d| then precision else |d|);
    Assembled(HeadOf(SignOf(negative, f), Prefix(base, f), pad, f), Fill(zeros, '0'), d, if f.left then Fill(pad, ' ') else "")
  }

  ghost function Assembled(head: string, zeros: string, digits: string, tail: string): string {
    head + zeros + digits + tail
  }

  /** What comes before the zeros and digits: blanks, sign, prefix, or sign, prefix, zeros. */
  ghost function HeadOf(sign: string, prefix: string, pad: int, f: Format): string {
    (if f.left || f.zeropad then "" else Fill(pad, ' ')) + sign + prefix + (if f.left || !f.zeropad then "" else Fill(pad, '0'))
  }

  /** What the digits show of a 32-bit value: its size when it is printed with a sign, else the
      value without sign. */
  ghost function Magnitude(num: int, f: Format): (u: nat)
    requires LONG_MIN <= num <= LONG_MAX
    ensures u < TWO_32
  {
    if num >= 0 then num else if f.sign then -num else num + TWO_32
  }

  function Reverse(s: string): string {
    if s == [] then [] else [s[|s| - 1]] + Reverse(s[..|s| - 1])
  }

  method Number(num: int, base: nat, size0: int, precision0: int, f: Format) returns (out: string)
    requires LONG_MIN <= num <= LONG_MAX
    ensures !(2 <= base <= 36) ==> out == ""
    ensures 2 <= base <= 36 ==> out == Layout(num < 0, Magnitude(num, f), base, size0, precision0, f)
  {
    hide *;
    out := "";
    if base < 2 || base > 36 {
      return;
    }
    var sign, prefix, u := SignAndPrefix(num, base, f);
    var size := size0 - |sign| - |prefix|;
    var tmp := new char[66];
    var i := DigitsOf(tmp, u, base, f.large);
    ghost var d := Digits(u, base, f.large);
    ReverseSize(tmp[..i]);
    var precision := if i > precision0 then i else precision0;
    size := size - precision;
    out, size := Head(sign, prefix, size, f);
    ghost var head, tail := out, Fill(size, ' ');
    var zeros;
    out, zeros := Put(out, precision - i, '0');
    out := PutDigits(out, tmp, i);
    out, size := Put(out, size, ' ');
    assert precision == if precision0 > |d| then precision0 else |d|;
    LaidOut(num < 0, u, base, size0, precision0, f, d);
    FillNone(precision - i, '0');
    FillNone(precision0 - i, '0');
    AssembledIs(head, Fill(precision0 - i, '0'), d, tail);
  }

  /** a blanks, the front, z zeros, the digits and b blanks. */
  ghost predicate Spread(out: string, front: string, d: string, a: nat, z: nat, b: nat) {
    && a + |front| + z + |d| + b == |out|
    && out[a..a + |front|] == front && out[a + |front| + z..a + |front| + z + |d|] == d
    && (forall i | 0 <= i < a || |out| - b <= i < |out| :: out[i] == ' ')
    && forall i | a + |front| <= i < a + |front| + z :: out[i] == '0'
  }

  /** The printed text is as wide as asked for, or as the number needs. Sign and prefix come together
      before the digits. What is missing in width are blanks after the digits, zeros before them, or
      blanks before all, as the flags say. */
  lemma LayoutMeans(negative: bool, u: nat, base: Base, size: int, precision: int, f: Format)
    ensures var out, d, front := Layout(negative, u, base, size, precision, f), Digits(u, base, f.large), SignOf(negative, f) + Prefix(base, f);
            var n := if precision > |d| then precision else |d|;
            var w := if size > |front| + n then size - |front| - n else 0;
            && (f.left ==> Spread(out, front, d, 0, n - |d|, w))
            && (!f.left && f.zeropad ==> Spread(out, front, d, 0, w + n - |d|, 0))
            && (!f.left && !f.zeropad ==> Spread(out, front, d, w, n - |d|, 0))
  {
    hide *;
    var d, sg, px := Digits(u, base, f.large), SignOf(negative, f), Prefix(base, f);
    LaidOut(negative, u, base, size, precision, f, d);
    AssembledSpreads(sg, px, d, size, precision, f);
  }

  lemma AssembledSpreads(sg: string, px: string, d: string, size: int, precision: int, f: Format)
    ensures var front, n := sg + px, if precision > |d| then precision else |d|;
            var w := if size > |front| + n then size - |front| - n else 0;
            var pad := size - |sg| - |px| - n;
            var out := Assembled(HeadOf(sg, px, pad, f), Fill(precision - |d|, '0'), d, if f.left then Fill(pad, ' ') else "");
            && (f.left ==> Spread(out, front, d, 0, n - |d|, w))
            && (!f.left && f.zeropad ==> Spread(out, front, d, 0, w + n - |d|, 0))
            && (!f.left && !f.zeropad ==> Spread(out, front, d, w, n - |d|, 0))
  {
    hide Fill, Spread, Assembled, HeadOf;
    var pad := size - |sg| - |px| - (if precision > |d| then precision else |d|);
    var most, blanks := Fill(precision - |d|, '0'), Fill(pad, ' ');
    FillNone(0, '0');
    Regrouped(sg, px, pad, f, most, d, blanks);
    if f.left {
      SpreadOut("", sg + px, "" + most, d, blanks, 0, precision - |d|, pad);
    } else if f.zeropad {
      SpreadOut("", sg + px, Fill(pad, '0') + most, d, "", pad, precision - |d|, 0);
    } else {
      SpreadOut(blanks, sg + px, "" + most, d, "", 0, precision - |d|, pad);
    }
  }

  lemma Regrouped(sg: string, px: string, pad: int, f: Format, most: string, d: string, blanks: string)
    requires blanks == Fill(pad, ' ')
    ensures Assembled(HeadOf(sg, px, pad, f), most, d, if f.left then blanks else "")
            == if f.left then "" + (sg + px) + ("" + most) + d + blanks
               else if f.zeropad then "" + (sg + px) + (Fill(pad, '0') + most) + d + ""
               else blanks + (sg + px) + ("" + most) + d + ""
  {
    hide Fill;
    var zeros := Fill(pad, '0');
    assert "" + sg + px + zeros == "" + (sg + px) + zeros;
    assert "" + sg + px + "" == "" + (sg + px) && blanks + sg + px + "" == blanks + (sg + px);
    assert "" + most == most;
  }

  lemma SpreadOut(first: string, front: string, zeros: string, d: string, tail: string, x: int, y: int, blanks: int)
    requires zeros == Fill(x, '0') + Fill(y, '0')
    requires (first == "" && tail == Fill(blanks, ' ')) || (tail == "" && first == Fill(blanks, ' '))
    ensures Spread(first + front + zeros + d + tail, front, d, |first|, |zeros|, |tail|)
    ensures |zeros| == (if x > 0 then x else 0) + (if y > 0 then y else 0) && |first| + |tail| == if blanks > 0 then blanks else 0
  {
    FillAll(x, '0');
    FillAll(y, '0');
    FillAll(blanks, ' ');
    hide Fill;
    var out := first + front + zeros + d + tail;
    assert out[|first|..|first| + |front|] == front;
    assert out[|first| + |front| + |zeros|..|first| + |front| + |zeros| + |d|] == d;
  }

  method SignAndPrefix(num: int, base: nat, f: Format) returns (sign: string, prefix: string, u: nat)
    requires LONG_MIN <= num <= LONG_MAX
    ensures sign == SignOf(num < 0, f) && prefix == Prefix(base, f) && u == Magnitude(num, f) < TWO_32
  {
    sign, u := "", if num < 0 then num + TWO_32 else num;
    if f.sign {
      if num < 0 {
        sign, u := "-", -num;
      } else if f.plus {
        sign := "+";
      } else if f.space {
        sign := " ";
      }
    }
    prefix := "";
    if f.special {
      if base == 8 {
        prefix := "0";
      } else if base == 16 {
        prefix := if f.large then "0X" else "0x";
      }
    }
  }

  /** Padding, sign and prefix; the padding that is left comes after the digits. */
  method Head(sign: string, prefix: string, size0: int, f: Format) returns (out: string, size: int)
    ensures out == HeadOf(sign, prefix, size0, f)
    ensures Fill(size, ' ') == if f.left then Fill(size0, ' ') else ""
  {
    hide Fill;
    var zeropad := f.zeropad && !f.left;
    var c := if zeropad then '0' else ' ';
    out, size := "", size0;
    FillNone(size0, c);
    if !zeropad && !f.left {
      out, size := Put(out, size, ' ');
      assert out == Fill(size0, ' ');
    }
    out := out + sign + prefix;
    if !f.left {
      ghost var head := out;
      FillNone(size, c);
      out, size := Put(out, size, c);
      assert out == head + if zeropad then Fill(size0, '0') else "";
      FillNone(size, ' ');
    } else {
      assert out == out + "";
    }
  }

  lemma LaidOut(negative: bool, u: nat, base: Base, size: int, precision: int, f: Format, d: string)
    requires d == Digits(u, base, f.large)
    ensures var pad := size - |SignOf(negative, f)| - |Prefix(base, f)| - (if precision > |d| then precision else |d|);
            Layout(negative, u, base, size, precision, f)
            == Assembled(HeadOf(SignOf(negative, f), Prefix(base, f), pad, f), Fill(precision - |d|, '0'), d,
                         if f.left then Fill(pad, ' ') else "")
  {
    hide Digits, Fill, SignOf, Prefix, HeadOf, Assembled;
  }

  lemma AssembledIs(head: string, zeros: string, digits: string, tail: string)
    ensures Assembled(head, zeros, digits, tail) == head + zeros + digits + tail
  {
  }

  lemma ReverseSize(s: string)
    ensures |Reverse(s)| == |s|
  {
  }

  lemma FillNone(n: int, c: char)
    ensures n <= 0 ==> Fill(n, c) == ""
  {
  }

  method DigitsOf(tmp: array<char>, u: nat, base: Base, large: bool) returns (i: nat)
    requires tmp.Length == 66 && u < TWO_32
    modifies tmp
    ensures i <= 66 && Reverse(tmp[..i]) == Digits(u, base, large)
  {
    if u == 0 {
      tmp[0] := '0';
      i := 1;
      assert tmp[..1] == "0" && Reverse("0") == "0";
    } else {
      i := DigitsInto(tmp, u, base, large);
    }
  }

  /** Appends n characters, none if n is not positive. */
  method Put(s: string, n: int, c: char) returns (out: string, left: int)
    ensures out == s + Fill(n, c) && left <= 0 && left <= n
  {
    out, left := s, n;
    ghost var k := 0;
    while left > 0
      invariant k >= 0 && left == n - k && (n > 0 ==> left >= 0) && (n <= 0 ==> k == 0)
      invariant out == s + Fill(k, c)
    {
      FillMore(k, c);
      out := out + [c];
      left, k := left - 1, k + 1;
    }
    if n <= 0 {
      assert out == s + Fill(n, c);
    }
  }

  method PutDigits(s: string, tmp: array<char>, n: nat) returns (out: string)
    requires n <= tmp.Length
    ensures out == s + Reverse(tmp[..n])
  {
    out := s;
    var i := n;
    while i > 0
      invariant 0 <= i <= n && out + Reverse(tmp[..i]) == s + Reverse(tmp[..n])
    {
      assert tmp[..i][..i - 1] == tmp[..i - 1];
      i := i - 1;
      out := out + [tmp[i]];
    }
  }

  /** The digits of u, last one first. */
  method DigitsInto(tmp: array<char>, u0: nat, base: Base, large: bool) returns (i: nat)
    requires tmp.Length == 66 && 0 < u0 < TWO_32
    modifies tmp
    ensures i <= 66 && Reverse(tmp[..i]) == Digits(u0, base, large)
  {
    hide Reverse, Pow2, DigitChar, Digits;
    var u := u0;
    i := 0;
    NothingYet();
    while u != 0
      invariant i <= 33 && 0 <= u && u * Pow2(i) <= u0
      invariant (if u > 0 then Digits(u, base, large) else []) + Reverse(tmp[..i]) == Digits(u0, base, large)
      decreases u
    {
      DivLess(u, base);
      DigitsFit(u, i, u0);
      var r, q: nat := u % base, u / base;
      ghost var was := tmp[..i];
      tmp[i] := DigitChar(r, large);
      assert tmp[..i + 1] == was + [DigitChar(r, large)];
      ReverseMore(was, DigitChar(r, large));
      HalfFits(u, q, i, u0);
      LastDigit(u, q, r, base, large, Reverse(was));
      u, i := q, i + 1;
    }
  }

  lemma NothingYet()
    ensures Reverse([]) == [] && Pow2(0) == 1
  {
  }

  lemma LastDigit(u: nat, q: nat, r: nat, base: Base, large: bool, rest: string)
    requires u > 0 && q == u / base && r == u % base
    ensures r < 36 && Digits(u, base, large) + rest == (if q > 0 then Digits(q, base, large) else []) + ([DigitChar(r, large)] + rest)
  {
    DivLess(u, base);
    if u < base {
      DivModUnique(u, base, 0, u);
      LastOnly(DigitChar(r, large), rest);
    } else {
      Regroup(Digits(q, base, large), DigitChar(r, large), rest);
    }
  }

  lemma LastOnly(c: char, rest: string)
    ensures [] + ([c] + rest) == [c] + rest
  {
  }

  lemma Regroup(d: string, c: char, rest: string)
    ensures (d + [c]) + rest == d + ([c] + rest)
  {
  }

  lemma DigitsFit(u: nat, i: nat, u0: nat)
    requires u > 0 && u * Pow2(i) <= u0 < TWO_32
    ensures i < 32
  {
    Pow32();
    if i >= 32 {
      Pow2Grows(32, i);
      MulAtLeast(Pow2(i), u);
    }
  }

  lemma Pow32()
    ensures Pow2(32) == TWO_32
  {
    assert Pow2(8) == 256;
    assert Pow2(16) == 65536 by { assert Pow2(12) == 4096; }
    assert Pow2(24) == 16777216 by { assert Pow2(20) == 1048576; }
    assert Pow2(28) == 268435456;
  }

  lemma HalfFits(u: nat, q: nat, i: nat, u0: nat)
    requires q * 2 <= u && u * Pow2(i) <= u0
    ensures q * Pow2(i + 1) <= u0
  {
    assert q * Pow2(i + 1) == (q * 2) * Pow2(i);
    MulAtLeast(Pow2(i), u - q * 2);
    assert u * Pow2(i) == (q * 2) * Pow2(i) + Pow2(i) * (u - q * 2);
  }

  lemma ReverseMore(s: string, c: char)
    ensures Reverse(s + [c]) == [c] + Reverse(s)
  {
    assert (s + [c])[..|s|] == s;
  }

  // ----- reading

  /** Character i of a string that ends with a zero character. */
  function At(s: string, i: nat): char {
    if i < |s| then s[i] else 0 as char
  }

  predicate IsSpace(c: char): (space: bool)
    ensures space <==> c as int == 32 || 9 <= c as int <= 13
  {
    c == ' ' || c == '\t' || c == '\n' || c == 11 as char || c == 12 as char || c == '\r'
  }

  function Blanks(s: string, i: nat): (j: nat)
    requires i <= |s|
    ensures i <= j <= |s|
    decreases |s| - i
  {
    if IsSpace(At(s, i)) then Blanks(s, i + 1) else i
  }

  /** Where the digits start, whether a minus sign came before them, and the radix they are in. */
  function Start(s: string, radix: int): (r: (nat, bool, int))
    ensures r.0 <= |s|
  {
    var b := Blanks(s, 0);
    var i := if At(s, b) == '-' || At(s, b) == '+' then b + 1 else b;
    if (radix == 0 || radix == 16) && At(s, i) == '0' && (At(s, i + 1) == 'x' || At(s, i + 1) == 'X') then
      (i + 2, At(s, b) == '-', 16)
    else (i, At(s, b) == '-', if radix != 0 then radix else if At(s, i) == '0' then 8 else 10)
  }

  function RunEnd(s: string, i: nat, base: nat): (e: nat)
    requires i <= |s|
    ensures i <= e <= |s| && (forall k | i <= k < e :: IsDigit(s[k], base)) && (e < |s| ==> !IsDigit(s[e], base))
    decreases |s| - i
  {
    if i < |s| && IsDigit(s[i], base) then RunEnd(s, i + 1, base) else i
  }

  datatype State = NoNumber | Ok | Overflow

  /** The test before each step of the accumulator is exact. */
  lemma OverflowTest(n: nat, c: nat, base: Base, lim: nat)
    requires c < base
    ensures var max1 := lim / base; var max2 := lim - max1 * base;
            max1 >= 0 && ((n >= max1 && (n > max1 || c > max2)) <==> n * base + c > lim)
  {
    DivLess(lim, base);
    var max1: nat := lim / base;
    OverQuotient(n, c, base, max1, lim % base);
  }

  /** The same for a limit given by its quotient q and remainder r. */
  lemma OverQuotient(n: nat, c: nat, base: nat, q: nat, r: nat)
    requires c < base && r < base
    ensures n > q || (n == q && c > r) <==> n * base + c > q * base + r
  {
    if n > q {
      OneMore(base, q, n);
    } else if n < q {
      OneMore(base, n, q);
    }
  }

  lemma OneMore(base: nat, a: nat, b: nat)
    requires a < b
    ensures a * base + base <= b * base
  {
    assert b * base == a * base + base * (b - a);
    MulAtLeast(base, b - a);
  }

  lemma ValueNext(s: string, i: nat, e: nat, base: Base)
    requires i <= e < |s| && AllDigits(s[i..e], base) && IsDigit(s[e], base)
    ensures AllDigits(s[i..e + 1], base) && Value(s[i..e + 1], base) == Value(s[i..e], base) * base + DigitVal(s[e])
  {
    assert s[i..e + 1] == s[i..e] + [s[e]];
    assert s[i..e + 1][..e - i] == s[i..e];
  }

  /** The digit loop both parsers share: the value as long as it is within the limit. */
  method Accumulate(s: string, i: nat, base: Base, lim: nat) returns (state: State, n: nat, e: nat)
    requires i <= |s|
    ensures e == RunEnd(s, i, base) && AllDigits(s[i..e], base)
    ensures state == NoNumber <==> e == i
    ensures state == Overflow <==> e > i && Value(s[i..e], base) > lim
    ensures state == Ok ==> n == Value(s[i..e], base)
  {
    hide Value;
    OverflowTest(0, 0, base, lim);
    var max1: nat := lim / base;
    var max2 := lim - max1 * base;
    state, n, e := NoNumber, 0, i;
    ValueNone(s, i, base);
    while e < |s| && IsDigit(s[e], base)
      invariant i <= e <= |s| && RunEnd(s, e, base) == RunEnd(s, i, base) && AllDigits(s[i..e], base)
      invariant state == NoNumber <==> e == i
      invariant state == Overflow <==> e > i && Value(s[i..e], base) > lim
      invariant state != Overflow ==> n == Value(s[i..e], base)
    {
      var c: nat := DigitVal(s[e]);
      ValueNext(s, i, e, base);
      OverflowTest(n, c, base, lim);
      Bigger(Value(s[i..e], base), c, base);
      if n >= max1 && (n > max1 || c > max2) {
        state := Overflow;
      }
      if state != Overflow {
        n := n * base + c;
        state := Ok;
      }
      e := e + 1;
    }
  }

  lemma ValueNone(s: string, i: nat, base: Base)
    requires i <= |s|
    ensures AllDigits(s[i..i], base) && Value(s[i..i], base) == 0
  {
  }

  lemma Bigger(v: nat, c: nat, base: Base)
    ensures v * base + c >= v
  {
    assert v * base == v + v * (base - 1);
    MulAtLeast(v, base - 1);
  }

  /** The number at the start of a string, held at the limits of a 32-bit signed integer. */
  function Long(s: string, radix: int): int {
    var (i, neg, r) := Start(s, radix);
    if !(2 <= r <= 36) then 0
    else
      var v: int := Value(s[i..RunEnd(s, i, r)], r);
      if neg then (if -v < LONG_MIN then LONG_MIN else -v) else if v > LONG_MAX then LONG_MAX else v
  }

  /** The same without sign, held at the largest unsigned value; a minus sign is taken modulo 2 to
      the 32. */
  function Ulong(s: string, radix: int): int {
    var (i, neg, r) := Start(s, radix);
    if !(2 <= r <= 36) then 0
    else
      var v := Value(s[i..RunEnd(s, i, r)], r);
      if v > ULONG_MAX then ULONG_MAX else if neg && v > 0 then TWO_32 - v else v
  }

  method SkipHead(s: string, radix0: int) returns (i: nat, neg: bool, radix: int)
    ensures (i, neg, radix) == Start(s, radix0)
  {
    i := 0;
    while IsSpace(At(s, i))
      invariant i <= |s| && Blanks(s, i) == Blanks(s, 0)
      decreases |s| - i
    {
      i := i + 1;
    }
    neg, radix := false, radix0;
    if At(s, i) == '-' {
      neg, i := true, i + 1;
    } else if At(s, i) == '+' {
      i := i + 1;
    }
    if (radix == 0 || radix == 16) && At(s, i) == '0' && (At(s, i + 1) == 'x' || At(s, i + 1) == 'X') {
      radix, i := 16, i + 2;
    }
    if radix == 0 {
      radix := if At(s, i) == '0' then 8 else 10;
    }
  }

  method Strtol(s: string, radix: int) returns (result: int, end: nat)
    ensures result == Long(s, radix) && LONG_MIN <= result <= LONG_MAX
    ensures var (i, neg, r) := Start(s, radix);
            end == if !(2 <= r <= 36) then i else if RunEnd(s, i, r) == i then 0 else RunEnd(s, i, r)
  {
    hide Start, RunEnd, Value, AllDigits;
    var i, neg, r := SkipHead(s, radix);
    result, end := 0, i;
    if 2 <= r <= 36 {
      var lim: nat := if neg then -LONG_MIN else LONG_MAX;
      var state, n, e := Accumulate(s, i, r, lim);
      end := e;
      ValueNone(s, i, r);
      match state {
        case NoNumber => end := 0;
        case Ok => result := if neg then 0 - n else n;
        case Overflow => result := if neg then LONG_MIN else LONG_MAX;
      }
    }
  }

  method Strtoul(s: string, radix: int) returns (result: int, end: nat)
    ensures result == Ulong(s, radix) && 0 <= result <= ULONG_MAX
    ensures var (i, neg, r) := Start(s, radix);
            end == if !(2 <= r <= 36) then i else if RunEnd(s, i, r) == i then 0 else RunEnd(s, i, r)
  {
    hide Start, RunEnd, Value, AllDigits;
    var i, neg, r := SkipHead(s, radix);
    result, end := 0, i;
    if 2 <= r <= 36 {
      var state, n, e := Accumulate(s, i, r, ULONG_MAX);
      end := e;
      ValueNone(s, i, r);
      match state {
        case NoNumber => end := 0;
        case Ok => result := if neg && n > 0 then TWO_32 - n else n;
        case Overflow => result := ULONG_MAX;
      }
    }
  }

  // ----- what is printed reads back

  predicate AllBlank(s: string) {
    forall i | 0 <= i < |s| :: s[i] == ' '
  }

  lemma {:induction false} BlanksSkipped(blanks: string, rest: string, i: nat)
    requires AllBlank(blanks) && i <= |blanks| && !IsSpace(At(rest, 0))
    ensures Blanks(blanks + rest, i) == |blanks|
    decreases |blanks| - i
  {
    var s := blanks + rest;
    if i < |blanks| {
      assert At(s, i) == ' ';
      BlanksSkipped(blanks, rest, i + 1);
    } else {
      assert At(s, i) == At(rest, 0);
    }
  }

  lemma {:induction false} RunSpans(before: string, run: string, tail: string, base: nat, k: nat)
    requires AllDigits(run, base) && !IsDigit(At(tail, 0), base) && k <= |run|
    ensures RunEnd(before + run + tail, |before| + k, base) == |before| + |run|
    decreases |run| - k
  {
    var s := before + run + tail;
    if k < |run| {
      assert s[|before| + k] == run[k];
      RunSpans(before, run, tail, base, k + 1);
    } else if tail != [] {
      assert s[|before| + k] == tail[0];
    }
  }

  predicate SignPart(sign: string) {
    sign == "" || sign == "-" || sign == "+"
  }

  predicate PrefixPart(prefix: string, base: nat) {
    prefix == "" || (base == 16 && (prefix == "0x" || prefix == "0X"))
  }

  lemma DigitIsPlain(c: char, base: nat)
    requires IsDigit(c, base)
    ensures !IsSpace(c) && c != '-' && c != '+' && (base <= 16 ==> c != 'x' && c != 'X')
  {
  }

  /** A string of blanks, sign, prefix, digits and blanks is read at its digits. */
  lemma StartOf(blanks: string, sign: string, prefix: string, run: string, tail: string, base: Base)
    requires AllBlank(blanks) && SignPart(sign) && PrefixPart(prefix, base)
    requires run != [] && AllDigits(run, base) && (tail == [] || tail[0] == ' ')
    ensures var s := blanks + (sign + (prefix + (run + tail)));
            Start(s, base) == (|blanks| + |sign| + |prefix|, sign == "-", base)
  {
    var number := run + tail;
    var body := prefix + number;
    DigitIsPlain(run[0], base);
    FrontOf(prefix, number);
    FrontOf(sign, body);
    Heads(prefix, run, tail, base);
    hide AllBlank, AllDigits, Blanks;
    BlanksSkipped(blanks, sign + body, 0);
    Shifted(blanks, sign + body);
    Shifted(sign, body);
    var s, i := blanks + (sign + body), |blanks| + |sign|;
    assert At(s, |blanks|) == At(sign + body, 0);
    assert At(s, i) == At(body, 0) && At(s, i + 1) == At(body, 1);
  }

  /** After the sign stand the prefix for base 16, or digits that do not look like it. */
  lemma Heads(prefix: string, run: string, tail: string, base: Base)
    requires PrefixPart(prefix, base)
    requires run != [] && AllDigits(run, base) && (tail == [] || tail[0] == ' ')
    ensures var body := prefix + (run + tail);
            var x := At(body, 0) == '0' && (At(body, 1) == 'x' || At(body, 1) == 'X');
            if prefix == "" then base == 16 ==> !x else x
  {
    var body := prefix + (run + tail);
    if prefix == "" {
      assert body == run + tail;
      if base == 16 && |run| > 1 {
        DigitIsPlain(run[1], base);
        assert At(body, 1) == run[1];
      } else if base == 16 {
        assert At(body, 1) == At(tail, 0);
      }
    } else {
      assert At(body, 0) == '0' && At(body, 1) == prefix[1];
    }
  }

  lemma FrontOf(a: string, b: string)
    requires b != []
    ensures a + b != [] && (a + b)[0] == if a == [] then b[0] else a[0]
  {
  }

  lemma Shifted(a: string, b: string)
    ensures forall k: nat :: At(a + b, |a| + k) == At(b, k)
  {
  }

  lemma {:induction false} ValueZeros(n: nat, d: string, base: Base)
    requires AllDigits(d, base)
    ensures AllDigits(Fill(n, '0') + d, base) && Value(Fill(n, '0') + d, base) == Value(d, base)
    decreases |d|
  {
    FillAll(n, '0');
    var s := Fill(n, '0') + d;
    if d == [] {
      assert s == Fill(n, '0');
      ZerosValue(n, base);
    } else {
      assert s[..|s| - 1] == Fill(n, '0') + d[..|d| - 1];
      ValueZeros(n, d[..|d| - 1], base);
    }
  }

  lemma {:induction false} ZerosValue(n: nat, base: Base)
    ensures AllDigits(Fill(n, '0'), base) && Value(Fill(n, '0'), base) == 0
  {
    FillAll(n, '0');
    if n > 0 {
      ZerosValue(n - 1, base);
      assert Fill(n, '0')[..n - 1] == Fill(n - 1, '0');
    }
  }

  /** The digits among what is printed, with the zeros in front of them. */
  ghost function RunOf(u: nat, base: Base, pad: int, precision: int, f: Format): string {
    var d := Digits(u, base, f.large);
    (if base == 8 then Prefix(base, f) else "")
    + ((if f.left || !f.zeropad then "" else Fill(pad, '0')) + (Fill(precision - |d|, '0') + d))
  }

  lemma RunValue(u: nat, base: Base, pad: int, precision: int, f: Format)
    ensures var run := RunOf(u, base, pad, precision, f);
            run != [] && AllDigits(run, base) && Value(run, base) == u
  {
    var d := Digits(u, base, f.large);
    DigitsValue(u, base, f.large);
    hide Digits, Value, AllDigits, Fill;
    var e := Fill(precision - |d|, '0') + d;
    ZerosInFront(precision - |d|, d, base);
    var z := if f.left || !f.zeropad then 0 else pad;
    FillNone(0, '0');
    ZerosInFront(z, e, base);
    var p := if base == 8 && f.special then 1 else 0;
    OneFilled('0');
    ZerosInFront(p, Fill(z, '0') + e, base);
  }

  lemma OneFilled(c: char)
    ensures Fill(1, c) == [c]
  {
    FillMore(0, c);
  }

  /** Grouping from the right instead of from the left. */
  lemma FromRight(a: string, b: string, c: string, d: string, e: string, g: string, h: string)
    ensures a + b + c + d + e + g + h == a + (b + (c + ((d + (e + g)) + h)))
  {
    assert a + b + c + d + e + g + h == a + b + c + (d + (e + g) + h);
  }

  /** What is printed is blanks, a sign, a prefix, the digits and blanks. */
  lemma Parts(negative: bool, u: nat, base: Base, size: int, precision: int, f: Format)
    returns (blanks: string, sign: string, prefix: string, run: string, tail: string)
    ensures Layout(negative, u, base, size, precision, f) == blanks + (sign + (prefix + (run + tail)))
    ensures AllBlank(blanks) && SignPart(sign) && PrefixPart(prefix, base) && (sign == "-" <==> f.sign && negative)
    ensures run != [] && AllDigits(run, base) && Value(run, base) == u && (tail == [] || tail[0] == ' ')
  {
    hide *;
    var d := Digits(u, base, f.large);
    var pad := size - |SignOf(negative, f)| - |Prefix(base, f)| - (if precision > |d| then precision else |d|);
    var first := if f.left || f.zeropad then "" else Fill(pad, ' ');
    prefix := if base == 8 then "" else Prefix(base, f);
    run := RunOf(u, base, pad, precision, f);
    tail := if f.left then Fill(pad, ' ') else "";
    RunValue(u, base, pad, precision, f);
    PrefixIs(base, f);
    FillBlank(pad);
    Grouped(negative, u, base, size, precision, f, d, pad);
    blanks, sign := SplitSign(negative, f, first, prefix + (run + tail));
  }

  lemma FillBlank(n: int)
    ensures AllBlank(Fill(n, ' ')) && AllBlank("") && (Fill(n, ' ') == [] || Fill(n, ' ')[0] == ' ')
  {
    FillAll(n, ' ');
  }

  /** A blank in place of a sign joins the blanks before it. */
  lemma SplitSign(negative: bool, f: Format, first: string, rest: string) returns (blanks: string, sign: string)
    requires AllBlank(first)
    ensures first + (SignOf(negative, f) + rest) == blanks + (sign + rest)
    ensures AllBlank(blanks) && SignPart(sign) && (sign == "-" <==> f.sign && negative)
  {
    var sg := SignOf(negative, f);
    SignBlank(negative, f);
    BlankEnd(first);
    hide AllBlank, SignOf;
    blanks, sign := if sg == " " then first + sg else first, if sg == " " then "" else sg;
    MoveSign(first, sg, blanks, sign, rest);
  }

  lemma PrefixIs(base: nat, f: Format)
    ensures PrefixPart(if base == 8 then "" else Prefix(base, f), base)
  {
  }

  lemma BlankEnd(s: string)
    ensures AllBlank(s) ==> AllBlank(s + " ")
  {
  }

  lemma SignBlank(negative: bool, f: Format)
    ensures var sg := SignOf(negative, f);
            (sg == " " || SignPart(sg)) && (sg == "-" <==> f.sign && negative)
  {
  }

  lemma Grouped(negative: bool, u: nat, base: Base, size: int, precision: int, f: Format, d: string, pad: int)
    requires d == Digits(u, base, f.large)
    requires pad == size - |SignOf(negative, f)| - |Prefix(base, f)| - (if precision > |d| then precision else |d|)
    ensures Layout(negative, u, base, size, precision, f)
            == (if f.left || f.zeropad then "" else Fill(pad, ' '))
               + (SignOf(negative, f) + ((if base == 8 then "" else Prefix(base, f))
               + (RunOf(u, base, pad, precision, f) + (if f.left then Fill(pad, ' ') else ""))))
  {
    hide Digits, Fill, SignOf, Prefix;
    var sg, px := SignOf(negative, f), Prefix(base, f);
    var first := if f.left || f.zeropad then "" else Fill(pad, ' ');
    var zeros := if f.left || !f.zeropad then "" else Fill(pad, '0');
    var most := Fill(precision - |d|, '0');
    var tail := if f.left then Fill(pad, ' ') else "";
    FromRight(first, sg, px, zeros, most, d, tail);
    MovePrefix(if base == 8 then px else "", if base == 8 then "" else px, zeros + (most + d), tail);
    EmptySides(px);
  }

  lemma EmptySides(s: string)
    ensures s + "" == s && "" + s == s
  {
  }

  lemma MovePrefix(p: string, q: string, x: string, tail: string)
    requires p == "" || q == ""
    ensures (p + q) + (x + tail) == q + ((p + x) + tail)
  {
  }

  lemma MoveSign(first: string, sg: string, blanks: string, sign: string, rest: string)
    requires if sg == " " then blanks == first + sg && sign == "" else blanks == first && sign == sg
    ensures first + (sg + rest) == blanks + (sign + rest)
  {
  }

  lemma NotADigit(tail: string, base: nat)
    requires tail == [] || tail[0] == ' '
    ensures !IsDigit(At(tail, 0), base)
  {
  }

  lemma ReadBack(blanks: string, sign: string, prefix: string, run: string, tail: string, base: Base)
    requires AllBlank(blanks) && SignPart(sign) && PrefixPart(prefix, base)
    requires run != [] && AllDigits(run, base) && (tail == [] || tail[0] == ' ')
    ensures var s := blanks + (sign + (prefix + (run + tail)));
            var (i, neg, r) := Start(s, base);
            r == base && neg == (sign == "-") && i <= |s| && s[i..RunEnd(s, i, base)] == run
  {
    hide Start, RunEnd, AllDigits, PrefixPart, SignPart, AllBlank;
    StartOf(blanks, sign, prefix, run, tail, base);
    var before := blanks + sign + prefix;
    var s := blanks + (sign + (prefix + (run + tail)));
    assert s == before + run + tail;
    NotADigit(tail, base);
    RunSpans(before, run, tail, base, 0);
    assert s[|before|..|before| + |run|] == run;
  }

  /** A signed value printed with a sign reads back, in any base, width, precision and style. */
  lemma SignedRoundTrip(num: int, base: Base, size: int, precision: int, f: Format)
    requires LONG_MIN <= num <= LONG_MAX && f.sign
    ensures Long(Layout(num < 0, Magnitude(num, f), base, size, precision, f), base) == num
  {
    hide Layout, Start, Value, AllDigits, RunEnd;
    var blanks, sign, prefix, run, tail := Parts(num < 0, Magnitude(num, f), base, size, precision, f);
    ReadBack(blanks, sign, prefix, run, tail, base);
  }

  /** A value printed without a sign reads back as the unsigned number of the same 32 bits. */
  lemma UnsignedRoundTrip(num: int, base: Base, size: int, precision: int, f: Format)
    requires LONG_MIN <= num <= LONG_MAX && !f.sign
    ensures Ulong(Layout(num < 0, Magnitude(num, f), base, size, precision, f), base) == num % TWO_32
  {
    hide Layout, Start, Value, AllDigits, RunEnd;
    var blanks, sign, prefix, run, tail := Parts(num < 0, Magnitude(num, f), base, size, precision, f);
    ReadBack(blanks, sign, prefix, run, tail, base);
  }

  /** What strtol and strtoul give for a sign and digits in the radix asked for, or in the one that the
      digits show when none is asked for: 0x means 16, a leading zero 8, anything else 10. Values
      out of range are held at the limit on their side. */
  lemma ReadsDigits(sign: string, prefix: string, run: string, base: Base, radix: nat)
    requires SignPart(sign) && run != [] && AllDigits(run, base) && PrefixPart(prefix, base)
    requires radix == base || (radix == 0 && (if prefix != "" then true else base == if run[0] == '0' then 8 else 10))
    ensures var v: int, s := Value(run, base), sign + prefix + run;
            && Long(s, radix) == (if sign == "-" then (if v > 0x80000000 then -0x80000000 else -v)
                                  else if v > 0x7fffffff then 0x7fffffff else v)
            && Ulong(s, radix) == if v > 0xffffffff then 0xffffffff else if sign == "-" then (0x1_0000_0000 - v) % 0x1_0000_0000 else v
  {
    var s := sign + prefix + run;
    hide Start, RunEnd, AllDigits, PrefixPart, SignPart, AllBlank, Value;
    NoBlank();
    assert s == "" + (sign + (prefix + (run + "")));
    ReadBack("", sign, prefix, run, "", base);
    if radix == 0 {
      RadixShown(sign, prefix, run, base);
    }
  }

  lemma NoBlank()
    ensures AllBlank("")
  {
  }

  /** Without a radix the start of the number shows it. */
  lemma RadixShown(sign: string, prefix: string, run: string, base: Base)
    requires SignPart(sign) && run != [] && AllDigits(run, base) && PrefixPart(prefix, base)
    requires prefix == "" ==> base == if run[0] == '0' then 8 else 10
    ensures Start(sign + prefix + run, 0) == Start(sign + prefix + run, base)
  {
    var body := prefix + (run + "");
    DigitIsPlain(run[0], base);
    if |run| > 1 {
      DigitIsPlain(run[1], base);
    }
    FrontOf(prefix, run);
    FrontOf(sign, body);
    Heads(prefix, run, "", base);
    NoBlank();
    hide AllDigits, Blanks;
    assert sign + prefix + run == "" + (sign + body);
    BlanksSkipped("", sign + body, 0);
    Shifted(sign, body);
    var s := sign + prefix + run;
    assert At(s, |sign|) == At(body, 0) && At(s, |sign| + 1) == At(body, 1);
    if prefix == "" {
      assert body == run;
      assert At(body, 0) == run[0];
    }
  }

  lemma ZerosInFront(n: int, d: string, base: Base)
    requires AllDigits(d, base)
    ensures AllDigits(Fill(n, '0') + d, base) && Value(Fill(n, '0') + d, base) == Value(d, base)
  {
    if n >= 0 {
      ValueZeros(n, d, base);
    } else {
      assert Fill(n, '0') + d == d;
    }
  }
}
