/** The conversions of vsprintf: a number into text, and the decimal numbers of a format read from it. */
module NumberPrinter {
  import opened NumberText

  function Reversed(s: string): (r: string)
    ensures |r| == |s|
  {
    if s == [] then [] else [s[|s| - 1]] + Reversed(s[..|s| - 1])
  }

  /** while (size-- > 0) *str++ = c; */
  method Pad(str: string, c: char, size: int) returns (out: string, rest: int)
    ensures out == str + Repeat(c, size) && rest < 0
  {
    out, rest := str, size;
    while rest > 0
      invariant size > 0 ==> 0 <= rest <= size && out == str + Repeat(c, size - rest)
      invariant size <= 0 ==> rest == size && out == str
    {
      out, rest := out + [c], rest - 1;
    }
    rest := rest - 1;
  }

  lemma ReversedMore(s: string, c: char)
    ensures Reversed(s + [c]) == [c] + Reversed(s)
  {
  }

  function DigitText(v: nat, base: nat, small: bool): (s: string)
    requires 2 <= base <= 36
    ensures |s| == |Digits(v, base)|
  {
    Chars(Digits(v, base), small)
  }

  lemma DigitTextMore(v: nat, base: nat, small: bool)
    requires 2 <= base <= 36 && v > 0
    ensures v / base < v && DigitText(v, base, small) == DigitText(v / base, base, small) + [DigitChar(v % base, small)]
  {
    Divided(v, base);
  }

  /** do_div: the quotient and the character of the remainder. */
  method DoDiv(v: nat, base: nat, small: bool) returns (q: nat, c: char)
    requires 2 <= base <= 36 && v > 0
    ensures q < v && DigitText(v, base, small) == DigitText(q, base, small) + [c]
  {
    DigitTextMore(v, base, small);
    q, c := v / base, DigitChar(v % base, small);
  }

  /** The digits go into the scratch array last first; 32 of its 36 cells are enough for any number and base. */
  method Divide(num: nat, base: nat, small: bool, tmp: array<char>) returns (i: nat)
    requires 2 <= base <= 36 && num < WORD && tmp.Length == 36
    modifies tmp
    ensures 1 <= i <= 32 && Reversed(tmp[..i]) == Shown(num, base, small)
  {
    i := 0;
    var n: nat := num;
    WordDigits(num, base);
    assert Reversed(tmp[..0]) == [] == DigitText(0, base, small);
    if n == 0 {
      ReversedMore([], '0');
      tmp[0] := '0';
      i := 1;
      assert tmp[..1] == [] + ['0'];
      return;
    }
    ghost var all := DigitText(num, base, small);
    assert Shown(num, base, small) == all;
    hide DigitText, Digits, DigitChar, Reversed, Shown;
    while n != 0
      invariant i <= 32 && (n == num || i > 0)
      invariant all == DigitText(n, base, small) + Reversed(tmp[..i])
      decreases n
    {
      ghost var before := tmp[..i];
      var q, c := DoDiv(n, base, small);
      ReversedMore(before, c);
      assert all == DigitText(q, base, small) + ([c] + Reversed(before));
      tmp[i] := c;
      n := q;
      i := i + 1;
      assert tmp[..i] == before + [c];
    }
  }

  /** The parts of a conversion in the order they are written. */
  function Parts(spaces: int, head: string, padding: int, zeros: int, digits: string, blanks: int): string {
    Repeat(' ', spaces) + head + Repeat('0', padding) + Repeat('0', zeros) + digits + Repeat(' ', blanks)
  }

  method EmitPrefix(str: string, base: nat, f: Flags) returns (out: string)
    ensures out == str + Prefix(base, f)
  {
    out := str;
    if f.special {
      if base == 8 {
        out := out + "0";
      } else if base == 16 {
        out := out + "0";
        out := out + [DigitChar(33, f.small)];
      }
    }
  }

  /** The zeros that the precision asks for, then the digits. */
  method EmitDigits(str: string, tmp: array<char>, count: nat, digits: int) returns (out: string)
    requires count <= tmp.Length && count <= digits
    ensures out == str + Repeat('0', digits - count) + Reversed(tmp[..count])
  {
    var i, precision := count, digits;
    out := str;
    while i < precision
      invariant i <= precision <= digits && out == str + Repeat('0', digits - precision)
    {
      precision := precision - 1;
      out := out + "0";
    }
    ghost var zeros := out;
    ghost var shown := Reversed(tmp[..count]);
    while i > 0
      invariant 0 <= i <= count && out + Reversed(tmp[..i]) == zeros + shown
    {
      i := i - 1;
      assert tmp[..i + 1][..i] == tmp[..i];
      out := out + [tmp[i]];
    }
    assert out == zeros + shown;
  }

  /** The text is written from its parts; `width` is what is left of it for padding. */
  method Emit(tmp: array<char>, count: nat, width: int, digits: int, base: nat, sign: string, f: Flags, zeroPad: bool)
      returns (str: string)
    requires count <= tmp.Length && count <= digits && (zeroPad ==> !f.left)
    ensures str == Parts(if zeroPad || f.left then 0 else width, sign + Prefix(base, f), if zeroPad then width else 0,
                         digits - count, Reversed(tmp[..count]), if f.left then width else 0)
  {
    hide Prefix, Reversed;
    var size := width;
    var c := if zeroPad then '0' else ' ';
    str := "";
    if !zeroPad && !f.left {
      str, size := Pad(str, ' ', size);
    }
    ghost var spaces := str;
    str := str + sign;
    str := EmitPrefix(str, base, f);
    assert str == spaces + (sign + Prefix(base, f));
    if !f.left {
      str, size := Pad(str, c, size);
    }
    str := EmitDigits(str, tmp, count, digits);
    str, size := Pad(str, ' ', size);
  }

  lemma PartsAreText(num: int, base: nat, size: int, precision: int, f: Flags, pad: int)
    requires 2 <= base <= 36
    requires pad == size - |Sign(num, f)| - |Prefix(base, f)| - Max(precision,
        |Shown(Magnitude(num, f), base, f.small)|)
    ensures var digits := Shown(Magnitude(num, f), base, f.small);
            var zeroPad := f.zeroPad && !f.left;
            Parts(if zeroPad || f.left then 0 else pad, Sign(num, f) + Prefix(base, f), if zeroPad then pad else 0,
                  Max(precision, |digits|) - |digits|, digits, if f.left then pad else 0) ==
                      Text(num, base, size, precision, f)
  {
    hide Shown, Magnitude, Sign, Prefix;
    var digits := Shown(Magnitude(num, f), base, f.small);
    var head := Sign(num, f) + Prefix(base, f);
    var zeros := Repeat('0', precision - |digits|);
    assert zeros == Repeat('0', Max(precision, |digits|) - |digits|);
    var none := Repeat(' ', 0);
    assert none == "" == Repeat('0', 0);
    if f.left {
      assert none + head + none + zeros + digits + Repeat(' ', pad) == head + (zeros + digits) + Repeat(' ', pad);
    } else if f.zeroPad {
      assert none + head + Repeat('0', pad) + zeros + digits + none == head + Repeat('0', pad) + (zeros + digits);
    } else {
      assert Repeat(' ', pad) + head + none + zeros + digits + none == Repeat(' ', pad) + head + (zeros + digits);
    }
  }

  /** The whole conversion; no text if the base is out of range. */
  method Number(num: int, base: int, width: int, digits: int, f: Flags) returns (ok: bool, str: string)
    requires IsInt(num)
    ensures ok <==> 2 <= base <= 36
    ensures if ok then str == Text(num, base, width, digits, f) else str == ""
  {
    hide Text, Shown, Parts, Reversed, Repeat;
    if base < 2 || base > 36 {
      return false, "";
    }
    var size, precision := width, digits;
    var zeroPad := f.zeroPad && !f.left;
    var sign, n;
    if f.signed && num < 0 {
      sign := "-";
      n := (0 - num) % WORD;
    } else {
      sign := if f.plus then "+" else if f.space then " " else "";
      n := num % WORD;
    }
    if sign != "" {
      size := size - 1;
    }
    if f.special {
      if base == 16 {
        size := size - 2;
      } else if base == 8 {
        size := size - 1;
      }
    }
    var tmp := new char[36];
    var i := Divide(n, base, f.small, tmp);
    if i > precision {
      precision := i;
    }
    size := size - precision;
    PartsAreText(num, base, width, digits, f, size);
    ok := true;
    str := Emit(tmp, i, size, precision, base, sign, f, zeroPad);
  }

  lemma WordStep(v: nat, d: nat)
    ensures (v % WORD * 10 + d) % WORD == (v * 10 + d) % WORD
  {
  }

  /** A 32-bit int from the digits at `from`; the first character after them. */
  method SkipAtoi(s: string, from: nat) returns (i: int, end: nat)
    requires from <= |s|
    ensures i == Value(Leading(s[from..], 10), 10) % WORD
    ensures from <= end <= |s| && end - from == |Leading(s[from..], 10)|
    ensures end < |s| ==> !('0' <= s[end] <= '9')
  {
    i, end := 0, from;
    ghost var all := Leading(s[from..], 10);
    ghost var read: seq<nat> := [];
    while end < |s| && '0' <= s[end] <= '9'
      invariant from <= end <= |s| && end - from == |read|
      invariant all == read + Leading(s[end..], 10)
      invariant i == Value(read, 10) % WORD
    {
      var d: nat := s[end] as int - '0' as int;
      assert s[end..][1..] == s[end + 1..];
      assert Leading(s[end..], 10) == [d] + Leading(s[end + 1..], 10);
      hide Leading, Value;
      ValueOfMore(read, d, 10);
      WordStep(Value(read, 10), d);
      read := read + [d];
      i := (i * 10 + d) % WORD;
      end := end + 1;
    }
    assert Leading(s[end..], 10) == [];
    assert read == all;
  }
}
