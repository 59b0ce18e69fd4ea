/** How numbers are written in a base, and how such text is read back. */
module NumberText {
  const WORD: nat := 0x1_0000_0000

  /** The flags of a conversion. */
  datatype Flags = Flags(zeroPad: bool, signed: bool, plus: bool, space: bool, left: bool, special: bool, small: bool)

  /** A 32-bit int of the source. */
  predicate IsInt(num: int) {
    -0x8000_0000 <= num < 0x8000_0000
  }

  // ---------- digits ----------

  /** The digits of v, most significant first; none for zero. */
  function Digits(v: nat, base: nat): (ds: seq<nat>)
    requires base >= 2
    ensures forall i :: 0 <= i < |ds| ==> ds[i] < base
  {
    if v == 0 then [] else Digits(v / base, base) + [v % base]
  }

  function Value(ds: seq<nat>, base: nat): nat {
    if ds == [] then 0 else Value(ds[..|ds| - 1], base) * base + ds[|ds| - 1]
  }

  lemma Divided(v: nat, base: nat)
    requires base >= 2
    ensures v / base * base + v % base == v
    ensures v > 0 ==> v / base < v
  {
  }

  lemma ValueOfMore(ds: seq<nat>, d: nat, base: nat)
    ensures Value(ds + [d], base) == Value(ds, base) * base + d
  {
  }

  lemma {:induction false} DigitsReadBack(v: nat, base: nat)
    requires base >= 2
    ensures Value(Digits(v, base), base) == v
    decreases v
  {
    if v > 0 {
      var q, d := v / base, v % base;
      assert q * base + d == v && q < v by {
        Divided(v, base);
      }
      assert Digits(v, base) == Digits(q, base) + [d];
      hide Value, Digits;
      DigitsReadBack(q, base);
      ValueOfMore(Digits(q, base), d, base);
    }
  }

  function Pow2(n: nat): nat {
    if n == 0 then 1 else 2 * Pow2(n - 1)
  }

  /** A number below 2 to the n has at most n digits in any base. */
  lemma {:induction false} FewDigits(v: nat, base: nat, n: nat)
    requires base >= 2 && v < Pow2(n)
    ensures |Digits(v, base)| <= n
    decreases n
  {
    if v > 0 {
      var q := v / base;
      assert v == q * base + v % base;
      assert 2 * q <= q * base;
      FewDigits(q, base, n - 1);
    }
  }

  lemma WordDigits(v: nat, base: nat)
    requires base >= 2 && v < WORD
    ensures |Digits(v, base)| <= 32
  {
    assert Pow2(8) == 0x100;
    assert Pow2(16) == 0x1_0000;
    assert Pow2(24) == 0x100_0000;
    assert Pow2(32) == WORD;
    FewDigits(v, base, 32);
  }

  /** 0 to 9, then the letters of one case. */
  function DigitChar(d: nat, small: bool): char
    requires d < 36
  {
    if d < 10 then '0' + d as char else if small then 'a' + (d - 10) as char else 'A' + (d - 10) as char
  }

  /** The digit a character stands for; 36 for any other character. */
  function DigitOf(c: char): nat {
    if '0' <= c <= '9' then c as int - '0' as int
    else if 'A' <= c <= 'Z' then c as int - 'A' as int + 10
    else if 'a' <= c <= 'z' then c as int - 'a' as int + 10
    else 36
  }

  function Chars(ds: seq<nat>, small: bool): (s: string)
    requires forall i :: 0 <= i < |ds| ==> ds[i] < 36
    ensures |s| == |ds|
  {
    seq(|ds|, i requires 0 <= i < |ds| => DigitChar(ds[i], small))
  }

  // ---------- a whole conversion ----------

  function Max(a: int, b: int): int { if a > b then a else b }

  function Repeat(c: char, n: int): (s: string)
    ensures |s| == Max(n, 0)
  {
    seq(Max(n, 0), i => c)
  }

  /** The 32-bit value printed after the sign; the most negative number is its own negation. */
  function Magnitude(num: int, f: Flags): nat {
    if f.signed && num < 0 then (0 - num) % WORD else num % WORD
  }

  function Sign(num: int, f: Flags): string {
    if f.signed && num < 0 then "-" else if f.plus then "+" else if f.space then " " else ""
  }

  function Prefix(base: nat, f: Flags): string {
    if f.special && base == 8 then "0" else if f.special && base == 16 then ['0', DigitChar(33, f.small)] else ""
  }

  function Shown(v: nat, base: nat, small: bool): string
    requires 2 <= base <= 36
  {
    if v == 0 then "0" else Chars(Digits(v, base), small)
  }

  /** Spaces up to the field width before or after, or zeros after sign and prefix; at least `precision` digits. */
  function Laid(head: string, digits: string, size: int, precision: int, f: Flags): string {
    var body := Repeat('0', precision - |digits|) + digits;
    var pad := size - |head| - |body|;
    if f.left then head + body + Repeat(' ', pad)
    else if f.zeroPad then head + Repeat('0', pad) + body
    else Repeat(' ', pad) + head + body
  }

  function Text(num: int, base: nat, size: int, precision: int, f: Flags): string
    requires 2 <= base <= 36
  {
    Laid(Sign(num, f) + Prefix(base, f), Shown(Magnitude(num, f), base, f.small), size, precision, f)
  }

  /** The text is as long as the field is wide, or as sign, prefix and digits need if that is more. */
  lemma TextLength(num: int, base: nat, size: int, precision: int, f: Flags)
    requires 2 <= base <= 36
    ensures |Text(num, base, size, precision, f)| ==
            Max(size, |Sign(num, f)| + |Prefix(base, f)| + Max(precision, |Shown(Magnitude(num, f), base, f.small)|))
  {
  }

  // ---------- the layout, in terms of the text without a field width ----------

  /** Characters before the digits. */
  function HeadLength(num: int, base: nat, f: Flags): nat {
    (if (f.signed && num < 0) || f.plus || f.space then 1 else 0)
    + (if f.special && base == 16 then 2 else if f.special && base == 8 then 1 else 0)
  }

  lemma LaidWide(head: string, digits: string, size: int, precision: int, f: Flags)
    ensures var core := Laid(head, digits, 0, precision, f);
            var pad := size - |core|;
            && core == head + (Repeat('0', precision - |digits|) + digits)
            && Laid(head, digits, size, precision, f)
               == if pad <= 0 then core
                  else if f.left then core + Repeat(' ', pad)
                  else if f.zeroPad then Laid(head, digits, 0, size - |head|, f)
                  else Repeat(' ', pad) + core
  {
    var zeros := Repeat('0', precision - |digits|);
    var body := zeros + digits;
    var core, pad := head + body, size - |head| - |body|;
    Nothing('0', -|head| - |body|);
    Nothing(' ', -|head| - |body|);
    assert Laid(head, digits, 0, precision, f) == core;
    if pad <= 0 {
      Nothing('0', pad);
      Nothing(' ', pad);
    } else if !f.left && f.zeroPad {
      MoreZeros(pad, precision - |digits|, digits);
      Nothing('0', -size);
      Nothing(' ', -size);
    }
  }

  lemma Nothing(c: char, n: int)
    requires n <= 0
    ensures Repeat(c, n) == ""
  {
  }

  lemma MoreZeros(a: int, b: int, digits: string)
    requires a > 0
    ensures Repeat('0', a) + (Repeat('0', b) + digits) == Repeat('0', a + Max(b, 0)) + digits
  {
  }

  /** A wider field adds blanks behind, zeros between what stands before the digits and them, or blanks in front. */
  lemma Padded(num: int, base: nat, size: int, precision: int, f: Flags)
    requires 2 <= base <= 36
    ensures var core := Text(num, base, 0, precision, f);
            var pad := size - |core|;
            Text(num, base, size, precision, f)
            == if pad <= 0 then core
               else if f.left then core + seq(pad, i => ' ')
               else if f.zeroPad then Text(num, base, 0, size - HeadLength(num, base, f), f)
               else seq(pad, i => ' ') + core
  {
    HeadIs(num, base, f);
    hide Laid, Sign, Prefix, Shown, Magnitude;
    LaidWide(Sign(num, f) + Prefix(base, f), Shown(Magnitude(num, f), base, f.small), size, precision, f);
  }

  lemma HeadIs(num: int, base: nat, f: Flags)
    ensures |Sign(num, f) + Prefix(base, f)| == HeadLength(num, base, f)
  {
  }

  predicate InCase(c: char, small: bool) {
    '0' <= c <= '9' || if small then 'a' <= c <= 'z' else 'A' <= c <= 'Z'
  }

  /** Without a field width: a sign where there is one to show, the prefix of the alternate form, then digits with
      letters of the case asked for, as many as the precision at least. */
  lemma Composed(num: int, base: nat, precision: int, f: Flags)
    requires 2 <= base <= 36
    ensures var core, h := Text(num, base, 0, precision, f), HeadLength(num, base, f);
            && |core| > h && |core| >= h + precision
            && (f.signed && num < 0 ==> core[0] == '-')
            && (!(f.signed && num < 0) && f.plus ==> core[0] == '+')
            && (!(f.signed && num < 0) && !f.plus && f.space ==> core[0] == ' ')
            && (f.special && base == 8 ==> core[h - 1] == '0')
            && (f.special && base == 16 ==> core[h - 2] == '0' && core[h - 1] == if f.small then 'x' else 'X')
            && (forall i :: h <= i < |core| ==> InCase(core[i], f.small))
  {
    HeadIs(num, base, f);
    HeadShows(num, base, f);
    ShownInCase(Magnitude(num, f), base, f.small);
    var head, digits := Sign(num, f) + Prefix(base, f), Shown(Magnitude(num, f), base, f.small);
    hide Laid, Sign, Prefix, Shown, Magnitude;
    LaidWide(head, digits, 0, precision, f);
    BodyInCase(precision - |digits|, digits, f.small);
  }

  lemma HeadShows(num: int, base: nat, f: Flags)
    ensures var head, h := Sign(num, f) + Prefix(base, f), HeadLength(num, base, f);
            && |head| == h
            && (f.signed && num < 0 ==> head[0] == '-')
            && (!(f.signed && num < 0) && f.plus ==> head[0] == '+')
            && (!(f.signed && num < 0) && !f.plus && f.space ==> head[0] == ' ')
            && (f.special && base == 8 ==> head[h - 1] == '0')
            && (f.special && base == 16 ==> head[h - 2] == '0' && head[h - 1] == if f.small then 'x' else 'X')
  {
  }

  lemma BodyInCase(zeros: int, digits: string, small: bool)
    requires forall i :: 0 <= i < |digits| ==> InCase(digits[i], small)
    ensures var body := Repeat('0', zeros) + digits;
            |body| == |digits| + Max(zeros, 0) && forall i :: 0 <= i < |body| ==> InCase(body[i], small)
  {
  }

  lemma ShownInCase(v: nat, base: nat, small: bool)
    requires 2 <= base <= 36
    ensures |Shown(v, base, small)| > 0
    ensures forall i :: 0 <= i < |Shown(v, base, small)| ==> InCase(Shown(v, base, small)[i], small)
  {
  }

  // ---------- reading back ----------

  function SkipSpaces(s: string): string {
    if s != [] && s[0] == ' ' then SkipSpaces(s[1..]) else s
  }

  function Skip(s: string, n: nat): string {
    if n <= |s| then s[n..] else ""
  }

  /** The digits at the start of s. */
  function Leading(s: string, base: nat): seq<nat> {
    if s != [] && DigitOf(s[0]) < base then [DigitOf(s[0])] + Leading(s[1..], base) else []
  }

  predicate Negative(t: string) {
    t != [] && t[0] == '-'
  }

  function AfterSign(t: string): string {
    if t != [] && (t[0] == '-' || t[0] == '+') then t[1..] else t
  }

  function AfterPrefix(t: string, base: nat, special: bool): string {
    if !special then t else if base == 16 then Skip(t, 2) else if base == 8 then Skip(t, 1) else t
  }

  /** Blanks, a sign, the prefix of an alternate form, digits: the 32-bit value they write. */
  function Read(s: string, base: nat, special: bool): nat {
    var t := SkipSpaces(s);
    Signed(Value(Leading(AfterPrefix(AfterSign(t), base, special), base), base), Negative(t))
  }

  function Signed(v: nat, negative: bool): nat {
    if negative then (0 - v) % WORD else v % WORD
  }

  lemma {:induction false} SpacesSkipped(n: int, s: string)
    ensures SkipSpaces(Repeat(' ', n) + s) == SkipSpaces(s)
    decreases n
  {
    if n > 0 {
      SpacesSkipped(n - 1, s);
      assert (Repeat(' ', n) + s)[1..] == Repeat(' ', n - 1) + s;
    } else {
      assert Repeat(' ', n) + s == s;
    }
  }

  lemma {:induction false} LeadingDigits(ds: seq<nat>, base: nat, small: bool, rest: string)
    requires base <= 36 && forall i :: 0 <= i < |ds| ==> ds[i] < base
    requires rest == [] || DigitOf(rest[0]) >= base
    ensures Leading(Chars(ds, small) + rest, base) == ds
  {
    if ds == [] {
      assert Chars(ds, small) + rest == rest;
    } else {
      LeadingDigits(ds[1..], base, small, rest);
      assert (Chars(ds, small) + rest)[1..] == Chars(ds[1..], small) + rest;
      CharRead(ds[0], small);
      assert [ds[0]] + ds[1..] == ds;
    }
  }

  lemma CharRead(d: nat, small: bool)
    requires d < 36
    ensures DigitOf(DigitChar(d, small)) == d
  {
  }

  function Zeros(n: int): (ds: seq<nat>)
    ensures |ds| == Max(n, 0)
  {
    seq(Max(n, 0), i => 0)
  }

  lemma {:induction false} ZerosAddNothing(n: int, ds: seq<nat>, base: nat)
    ensures Value(Zeros(n) + ds, base) == Value(ds, base)
    decreases |ds|, n
  {
    var all := Zeros(n) + ds;
    if ds != [] {
      ZerosAddNothing(n, ds[..|ds| - 1], base);
      assert all[..|all| - 1] == Zeros(n) + ds[..|ds| - 1];
    } else if n > 0 {
      ZerosAddNothing(n - 1, ds, base);
      assert all[..|all| - 1] == Zeros(n - 1) + ds;
    } else {
      assert all == ds;
    }
  }

  /** The digits of the number, as printed: with "0" for zero. */
  function ShownDigits(v: nat, base: nat): (ds: seq<nat>)
    requires base >= 2
    ensures |ds| > 0 && forall i :: 0 <= i < |ds| ==> ds[i] < base
  {
    if v == 0 then [0] else Digits(v, base)
  }

  /** Leading zeros, digits and trailing blanks read as the number. */
  lemma BodyRead(v: nat, base: nat, small: bool, zeros: int, blanks: int)
    requires 2 <= base <= 36
    ensures Value(Leading(Repeat('0', zeros) + Shown(v, base, small) + Repeat(' ', blanks), base), base) == v
  {
    var ds := Zeros(zeros) + ShownDigits(v, base);
    ShownChars(v, base, small, zeros);
    hide Shown, Repeat, Zeros, Value, Leading, ShownDigits, Chars;
    TailBlank(blanks, base);
    LeadingDigits(ds, base, small, Repeat(' ', blanks));
    ZerosAddNothing(zeros, ShownDigits(v, base), base);
    ShownReadBack(v, base);
  }

  lemma TailBlank(blanks: int, base: nat)
    requires base <= 36
    ensures var t := Repeat(' ', blanks); t == [] || DigitOf(t[0]) >= base
  {
  }

  lemma ShownChars(v: nat, base: nat, small: bool, zeros: int)
    requires 2 <= base <= 36
    ensures var ds := Zeros(zeros) + ShownDigits(v, base);
            (forall i :: 0 <= i < |ds| ==> ds[i] < base)
                && Chars(ds, small) == Repeat('0', zeros) + Shown(v, base, small)
  {
  }

  lemma ShownReadBack(v: nat, base: nat)
    requires base >= 2
    ensures Value(ShownDigits(v, base), base) == v
  {
    DigitsReadBack(v, base);
    ValueOfMore([], 0, base);
    assert [] + [0] == [0];
  }

  /** A blank in place of a sign is skipped with the blanks before it; a sign ends them. */
  lemma SignReached(sign: string, rest: string, blanks: int)
    requires rest != [] && rest[0] != ' ' && rest[0] != '-' && rest[0] != '+' && sign in ["", " ", "+", "-"]
    ensures var t := SkipSpaces(Repeat(' ', blanks) + (sign + rest));
            AfterSign(t) == rest && (Negative(t) <==> sign == "-")
  {
    SpacesSkipped(blanks, sign + rest);
    assert sign != "" ==> (sign + rest)[1..] == rest;
    assert sign == "" ==> sign + rest == rest;
  }

  lemma PrefixSkipped(base: nat, f: Flags, body: string)
    ensures AfterPrefix(Prefix(base, f) + body, base, f.special) == body
  {
  }

  lemma DigitFirst(base: nat, f: Flags, body: string)
    requires 2 <= base <= 36 && body != [] && DigitOf(body[0]) < base
    ensures var rest := Prefix(base, f) + body;
            rest != [] && rest[0] != ' ' && rest[0] != '-' && rest[0] != '+'
  {
  }

  /** What stands before the digits is skipped. */
  lemma HeadRead(num: int, base: nat, f: Flags, blanks: int, body: string)
    requires 2 <= base <= 36 && body != [] && DigitOf(body[0]) < base
    ensures Read(Repeat(' ', blanks) + (Sign(num, f) + (Prefix(base, f) + body)), base, f.special) ==
            Signed(Value(Leading(body, base), base), f.signed && num < 0)
  {
    DigitFirst(base, f, body);
    hide Leading, Value, SkipSpaces, Repeat, Prefix, AfterSign, AfterPrefix, Negative, DigitOf, Signed;
    var sign, rest := Sign(num, f), Prefix(base, f) + body;
    SignReached(sign, rest, blanks);
    PrefixSkipped(base, f, body);
  }

  lemma FirstDigit(v: nat, base: nat, small: bool, zeros: int, tail: string)
    requires 2 <= base <= 36
    ensures var body := Repeat('0', zeros) + Shown(v, base, small) + tail;
            body != [] && DigitOf(body[0]) < base
  {
  }

  /** The sign and the magnitude make up the number, as a 32-bit word. */
  lemma NumberOf(num: int, f: Flags)
    requires IsInt(num)
    ensures Signed(Magnitude(num, f), f.signed && num < 0) == num % WORD
  {
  }

  function Field(num: int, base: nat, f: Flags, spaces: int, zeros: int, blanks: int): string
    requires 2 <= base <= 36
  {
    Repeat(' ', spaces)
    + (Sign(num, f) + (Prefix(base, f)
        + (Repeat('0', zeros) + Shown(Magnitude(num, f), base, f.small) + Repeat(' ', blanks))))
  }

  lemma FieldRead(num: int, base: nat, f: Flags, spaces: int, zeros: int, blanks: int)
    requires 2 <= base <= 36 && IsInt(num)
    ensures Read(Field(num, base, f, spaces, zeros, blanks), base, f.special) == num % WORD
  {
    hide Shown, Magnitude, Sign, Prefix, Read, Leading, Value, DigitOf, Signed, Repeat;
    var v := Magnitude(num, f);
    var body := Repeat('0', zeros) + Shown(v, base, f.small) + Repeat(' ', blanks);
    FirstDigit(v, base, f.small, zeros, Repeat(' ', blanks));
    BodyRead(v, base, f.small, zeros, blanks);
    HeadRead(num, base, f, spaces, body);
    NumberOf(num, f);
  }

  lemma Nested(a: string, b: string, c: string, d: string)
    ensures a + b + c + d == a + (b + (c + d))
  {
  }

  /** Every text is blanks, head, zeros, digits and blanks. */
  lemma TextIsField(num: int, base: nat, size: int, precision: int, f: Flags)
      returns (spaces: int, zeros: int, blanks: int)
    requires 2 <= base <= 36
    ensures Text(num, base, size, precision, f) == Field(num, base, f, spaces, zeros, blanks)
  {
    hide Shown, Magnitude, Sign, Prefix;
    var digits := Shown(Magnitude(num, f), base, f.small);
    var head := Sign(num, f) + Prefix(base, f);
    var body := Repeat('0', precision - |digits|) + digits;
    var pad := size - |head| - |body|;
    if f.left {
      spaces, zeros, blanks := 0, precision - |digits|, pad;
      Nested(Sign(num, f), Prefix(base, f), body, Repeat(' ', pad));
    } else if f.zeroPad {
      spaces, zeros, blanks := 0, Max(pad, 0) + Max(precision - |digits|, 0), 0;
      assert Repeat('0', zeros) == Repeat('0', pad) + Repeat('0', precision - |digits|);
      Nested(Sign(num, f), Prefix(base, f), Repeat('0', zeros) + digits, Repeat(' ', 0));
      assert head + Repeat('0', pad) + body == head + (Repeat('0', zeros) + digits) + Repeat(' ', 0);
    } else {
      spaces, zeros, blanks := pad, precision - |digits|, 0;
      Nested(Sign(num, f), Prefix(base, f), body, Repeat(' ', 0));
      assert Repeat(' ', pad) + head + body == Repeat(' ', pad) + (head + body + Repeat(' ', 0));
    }
  }

  /** Whatever the base, the flags, the width and the precision: the text reads back as the 32-bit number printed. */
  lemma TextReadsBack(num: int, base: nat, size: int, precision: int, f: Flags)
    requires 2 <= base <= 36 && IsInt(num)
    ensures Read(Text(num, base, size, precision, f), base, f.special) == num % WORD
  {
    hide Text, Field, Read;
    var spaces, zeros, blanks := TextIsField(num, base, size, precision, f);
    FieldRead(num, base, f, spaces, zeros, blanks);
  }

  /** A number printed in base 10 without flags reads back digit by digit, with nothing to skip. */
  lemma PlainReadsBack(num: int)
    requires IsInt(num)
    ensures Value(Leading(Text(num, 10, -1, -1, Flags(false, false, false, false, false, false, false)), 10), 10) ==
        num % WORD
  {
    var f := Flags(false, false, false, false, false, false, false);
    BodyRead(num % WORD, 10, false, 0, 0);
    var shown := Shown(num % WORD, 10, false);
    assert Text(num, 10, -1, -1, f) == shown == Repeat('0', 0) + shown + Repeat(' ', 0);
  }
}
