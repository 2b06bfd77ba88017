/** The number formatter of lib/print.c: digits in reverse, padding, and reversal in place; what it prints
    reads back as the number. */
module PrintNum {
  import opened Words

  function DigitChar(d: int, upcase: bool): char
    requires 0 <= d < 16
  {
    if d <= 9 then '0' + d as char else if upcase then 'A' + (d - 10) as char else 'a' + (d - 10) as char
  }

  function DigitValue(c: char): int {
    if '0' <= c <= '9' then (c - '0') as int
    else if 'a' <= c <= 'f' then (c - 'a') as int + 10
    else if 'A' <= c <= 'F' then (c - 'A') as int + 10
    else -1
  }

  lemma DigitReads(d: int, upcase: bool)
    requires 0 <= d < 16
    ensures DigitValue(DigitChar(d, upcase)) == d && DigitChar(d, upcase) != ' ' && DigitChar(d, upcase) != '-'
  {}

  /** The digits of u, the last one first; at least one. */
  function Digits(u: nat, base: nat, upcase: bool): (ds: string)
    requires 2 <= base <= 16
    ensures ds != []
    decreases u
  {
    [DigitChar(u % base, upcase)] + if u / base == 0 then [] else Digits(u / base, base, upcase)
  }

  function Reversed(s: string): (r: string)
    ensures |r| == |s|
    ensures forall k :: 0 <= k < |s| ==> r[k] == s[|s| - 1 - k]
  {
    seq(|s|, k requires 0 <= k < |s| => s[|s| - 1 - k])
  }

  function Fill(c: char, n: nat): string { seq(n, _ => c) }

  function Max(a: int, b: int): int { if a < b then b else a }

  function Sign(neg: bool): string { if neg then "-" else "" }

  /** What print_num has to print: the number with its sign, padded to the length. Padding stands behind
      when left adjusted, zeros stand between the sign and the digits, other padding in front. */
  function Formatted(u: nat, base: nat, neg: bool, length: nat, ladjust: bool, padc: char, upcase: bool): string
    requires 2 <= base <= 16
  {
    var ds := Reversed(Digits(u, base, upcase));
    Padded(ds, neg, Max(length, |ds| + |Sign(neg)|), ladjust, if ladjust then ' ' else padc)
  }

  /** Sign and digits, padded to the length. */
  function Padded(ds: string, neg: bool, length: nat, ladjust: bool, padc: char): string
    requires |ds| + |Sign(neg)| <= length
  {
    var rest := length - |ds| - |Sign(neg)|;
    if ladjust then Sign(neg) + ds + Fill(padc, rest)
    else if neg && padc == '0' then "-" + Fill('0', rest) + ds
    else Fill(padc, rest) + Sign(neg) + ds
  }

  lemma ReverseJoins(a: string, b: string)
    ensures Reversed(a + b) == Reversed(b) + Reversed(a)
  {}

  lemma ReverseFill(c: char, n: nat)
    ensures Reversed(Fill(c, n)) == Fill(c, n)
  {}

  function Signed(neg: bool, u: int): int { if neg then -u else u }

  // ---------- the layout ----------

  /** A digit is a place of the alphabet: capital letters exactly when they are asked for. */
  lemma DigitChars(d: int, upcase: bool)
    requires 0 <= d < 16
    ensures DigitChar(d, upcase) == (if upcase then "0123456789ABCDEF" else "0123456789abcdef")[d]
  {
    var t := if upcase then "0123456789ABCDEF" else "0123456789abcdef";
    var low := ['0', '1', '2', '3', '4', '5', '6', '7', '8', '9'];
    assert t == if upcase then low + ['A', 'B', 'C', 'D', 'E', 'F'] else low + ['a', 'b', 'c', 'd', 'e', 'f'];
  }

  /** Where every character of a number stands: left adjusted the sign and the digits come first and only spaces
      follow; otherwise the digits come last, and what is before them is the padding with the sign at its
      head if the padding is '0', at its end if it is another character. */
  lemma Layout(u: nat, base: nat, neg: bool, length: nat, ladjust: bool, padc: char, upcase: bool)
    requires 2 <= base <= 16
    ensures var s := Formatted(u, base, neg, length, ladjust, padc, upcase); var d := |Digits(u, base, upcase)|;
            |s| == (if length < d + (if neg then 1 else 0) then d + (if neg then 1 else 0) else length) &&
            var first := if !ladjust then |s| - d else if neg then 1 else 0;
            (forall k :: first <= k < first + d ==> s[k] == Digits(u, base, upcase)[first + d - 1 - k]) &&
            (forall k :: first + d <= k < |s| ==> s[k] == ' ') &&
            var sign := if !neg then -1 else if ladjust || padc == '0' then 0 else first - 1;
            (neg ==> 0 <= sign < first && s[sign] == '-') &&
            forall k :: 0 <= k < first && k != sign ==> s[k] == padc
  {
    hide Digits, Reversed, Padded;
    var ds := Digits(u, base, upcase);
    var length1 := Max(length, |ds| + |Sign(neg)|);
    FormattedIs(u, base, neg, length, ladjust, padc, upcase, ds, length1, if ladjust then ' ' else padc);
    PlacesOf(ds, neg, length1, ladjust, if ladjust then ' ' else padc);
  }

  lemma PlacesOf(ds: string, neg: bool, length: nat, ladjust: bool, padc: char)
    requires |ds| + |Sign(neg)| <= length && (ladjust ==> padc == ' ')
    ensures var s := Padded(Reversed(ds), neg, length, ladjust, padc); var d := |ds|;
            |s| == length &&
            var first := if !ladjust then |s| - d else if neg then 1 else 0;
            (forall k :: first <= k < first + d ==> s[k] == ds[first + d - 1 - k]) &&
            (forall k :: first + d <= k < |s| ==> s[k] == ' ') &&
            var sign := if !neg then -1 else if ladjust || padc == '0' then 0 else first - 1;
            (neg ==> 0 <= sign < first && s[sign] == '-') &&
            forall k :: 0 <= k < first && k != sign ==> s[k] == padc
  {
    hide Reversed;
    var r, rest := Reversed(ds), length - |ds| - |Sign(neg)|;
    var head := if ladjust then Sign(neg) else if neg && padc == '0' then "-" + Fill('0', rest) else Fill(padc, rest) + Sign(neg);
    var tail := if ladjust then Fill(' ', rest) else "";
    assert Padded(r, neg, length, ladjust, padc) == head + r + tail;
  }

  // ---------- reading back ----------

  /** The value of a string of digits. */
  function Value(s: string, base: nat): int {
    if s == [] then 0 else Value(s[..|s| - 1], base) * base + DigitValue(s[|s| - 1])
  }

  function SkipSpaces(s: string): string {
    if s != [] && s[0] == ' ' then SkipSpaces(s[1..]) else s
  }

  /** The string up to the first space. */
  function Word(s: string): string {
    if s == [] || s[0] == ' ' then [] else [s[0]] + Word(s[1..])
  }

  /** Padding is taken away, then a sign and digits are read. */
  function Parse(s: string, base: nat): int {
    var w := Word(SkipSpaces(s));
    if w != [] && w[0] == '-' then -Value(w[1..], base) else Value(w, base)
  }

  lemma {:induction false} DigitsRead(u: nat, base: nat, upcase: bool)
    requires 2 <= base <= 16
    ensures Value(Reversed(Digits(u, base, upcase)), base) == u
    decreases u
  {
    var ds := Digits(u, base, upcase);
    var d, q := u % base, u / base;
    DivMod(u, base);
    DigitReads(d, upcase);
    var c := DigitChar(d, upcase);
    if q == 0 {
      assert ds == [c] && Reversed(ds) == [c];
      hide Digits, DigitChar, DigitValue;
      assert [c][..0] == [] && Value([], base) == 0;
    } else {
      var rest := Digits(q, base, upcase);
      assert ds == [c] + rest;
      DigitsRead(q, base, upcase);
      hide Digits, DigitChar, DigitValue;
      ReverseJoins([c], rest);
      assert Reversed([c]) == [c];
      ValueAppends(Reversed(rest), c, base);
    }
  }

  lemma ValueAppends(s: string, c: char, base: nat)
    ensures Value(s + [c], base) == Value(s, base) * base + DigitValue(c)
  {
    assert (s + [c])[..|s|] == s;
  }

  lemma DivMod(u: nat, base: nat)
    requires base >= 2
    ensures u == u / base * base + u % base && 0 <= u % base < base && 0 <= u / base
    ensures u > 0 ==> u / base < u
  {
    Halves(u, base);
  }

  lemma {:induction false} DigitsAreDigits(u: nat, base: nat, upcase: bool)
    requires 2 <= base <= 16
    ensures forall k :: 0 <= k < |Digits(u, base, upcase)| ==> Digits(u, base, upcase)[k] != ' ' && Digits(u, base, upcase)[k] != '-'
    decreases u
  {
    DivMod(u, base);
    DigitReads(u % base, upcase);
    if u / base != 0 { DigitsAreDigits(u / base, base, upcase); }
  }

  lemma {:induction false} ZerosCountNothing(n: nat, s: string, base: nat)
    ensures Value(Fill('0', n) + s, base) == Value(s, base)
    decreases n + |s|
  {
    if s != [] {
      var t := Fill('0', n) + s;
      assert t[..|t| - 1] == Fill('0', n) + s[..|s| - 1];
      ZerosCountNothing(n, s[..|s| - 1], base);
    } else if n > 0 {
      var t := Fill('0', n) + s;
      assert t == Fill('0', n) && t[..|t| - 1] == Fill('0', n - 1) + s;
      ZerosCountNothing(n - 1, s, base);
    } else {
      assert Fill('0', 0) + s == s;
    }
  }

  lemma {:induction false} SpacesSkipped(n: nat, s: string)
    requires s != [] && s[0] != ' '
    ensures SkipSpaces(Fill(' ', n) + s) == s
  {
    if n == 0 {
      assert Fill(' ', 0) + s == s;
    } else {
      assert (Fill(' ', n) + s)[1..] == Fill(' ', n - 1) + s;
      SpacesSkipped(n - 1, s);
    }
  }

  lemma {:induction false} WordRead(s: string, n: nat)
    requires forall k :: 0 <= k < |s| ==> s[k] != ' '
    ensures Word(s + Fill(' ', n)) == s
  {
    if s == [] {
      assert s + Fill(' ', n) == Fill(' ', n);
    } else {
      assert (s + Fill(' ', n))[1..] == s[1..] + Fill(' ', n);
      WordRead(s[1..], n);
    }
  }

  /** Round trip: what is printed reads back as the signed number, and it has the wanted length. */
  lemma PrintedReadsBack(u: nat, base: nat, neg: bool, length: nat, ladjust: bool, padc: char, upcase: bool)
    requires 2 <= base <= 16 && (padc == ' ' || padc == '0')
    ensures var s := Formatted(u, base, neg, length, ladjust, padc, upcase);
            Parse(s, base) == Signed(neg, u) && |s| == Max(length, |Digits(u, base, upcase)| + |Sign(neg)|)
  {
    hide Digits, Value, DigitValue, Word, SkipSpaces, Reversed, Padded, Fill, Sign, Parse, Formatted, Signed;
    var ds := Reversed(Digits(u, base, upcase));
    var pad := if ladjust then ' ' else padc;
    SignIsShort(neg);
    var length1 := Max(length, |ds| + |Sign(neg)|);
    var rest := length1 - |ds| - |Sign(neg)|;
    var zeros := if pad == ' ' then 0 else rest;
    FormattedIs(u, base, neg, length, ladjust, padc, upcase, Digits(u, base, upcase), length1, pad);
    CoreReads(u, base, neg, zeros, upcase);
    var core := Sign(neg) + Fill('0', zeros) + ds;
    PaddedCore(ds, neg, length1, ladjust, pad);
    if ladjust { LeftReads(core, rest); } else { RightReads(core, rest - zeros); }
    ParseIs(Formatted(u, base, neg, length, ladjust, padc, upcase), core, base);
  }

  lemma SignIsShort(neg: bool)
    ensures |Sign(neg)| <= 1
  {}

  lemma ParseIs(s: string, w: string, base: nat)
    requires Word(SkipSpaces(s)) == w && w != []
    ensures Parse(s, base) == if w[0] == '-' then -Value(w[1..], base) else Value(w, base)
  {
    hide Word, SkipSpaces, Value;
  }

  /** Blank padding around sign, zeros and digits. */
  lemma PaddedCore(ds: string, neg: bool, length: nat, ladjust: bool, pad: char)
    requires |ds| + |Sign(neg)| <= length && (pad == ' ' || (pad == '0' && !ladjust))
    ensures var rest := length - |ds| - |Sign(neg)|; var zeros := if pad == ' ' then 0 else rest;
            var core := Sign(neg) + Fill('0', zeros) + ds;
            Padded(ds, neg, length, ladjust, pad) == (if ladjust then core + Fill(' ', rest) else Fill(' ', rest - zeros) + core) &&
            |Padded(ds, neg, length, ladjust, pad)| == length
  {
    assert Fill('0', 0) == "" && Fill(' ', 0) == "";
  }

  lemma LeftReads(core: string, n: nat)
    requires core != [] && forall k :: 0 <= k < |core| ==> core[k] != ' '
    ensures Word(SkipSpaces(core + Fill(' ', n))) == core
  {
    hide Word;
    WordRead(core, n);
    assert (core + Fill(' ', n))[0] == core[0];
  }

  lemma RightReads(core: string, n: nat)
    requires core != [] && forall k :: 0 <= k < |core| ==> core[k] != ' '
    ensures Word(SkipSpaces(Fill(' ', n) + core)) == core
  {
    hide Word;
    SpacesSkipped(n, core);
    WordRead(core, 0);
    assert core + Fill(' ', 0) == core;
  }

  /** Sign, zeros and digits without padding. */
  lemma CoreReads(u: nat, base: nat, neg: bool, zeros: nat, upcase: bool)
    requires 2 <= base <= 16
    ensures var w := Sign(neg) + Fill('0', zeros) + Reversed(Digits(u, base, upcase));
            w != [] && (forall k :: 0 <= k < |w| ==> w[k] != ' ') &&
            (if w[0] == '-' then -Value(w[1..], base) else Value(w, base)) == Signed(neg, u)
  {
    var ds := Reversed(Digits(u, base, upcase));
    DigitsRead(u, base, upcase);
    DigitsAreDigits(u, base, upcase);
    assert ds[0] == Digits(u, base, upcase)[|ds| - 1];
    hide Digits, Reversed, Value;
    ZerosCountNothing(zeros, ds, base);
    CoreShape(ds, neg, zeros);
  }

  lemma CoreShape(ds: string, neg: bool, zeros: nat)
    requires ds != [] && forall k :: 0 <= k < |ds| ==> ds[k] != ' ' && ds[k] != '-'
    ensures var w := Sign(neg) + Fill('0', zeros) + ds;
            w != [] && (forall k :: 0 <= k < |w| ==> w[k] != ' ') && (w[0] == '-' <==> neg) &&
            (if neg then w[1..] else w) == Fill('0', zeros) + ds
  {}

  // ---------- in place ----------

  /** A 32-bit number has at most 32 digits, so that sign and digits fit into the buffer. */
  lemma {:induction false} FewDigits(u: nat, base: nat, upcase: bool, bits: nat, bound: nat)
    requires 2 <= base <= 16 && u < bound && bound == Pow2(bits) && bits >= 1
    ensures |Digits(u, base, upcase)| <= bits
    decreases bits
  {
    if u / base != 0 {
      assert bits >= 2 by { assert Pow2(1) == 2; }
      assert u / base <= u / 2 by { Halves(u, base); }
      FewDigits(u / base, base, upcase, bits - 1, Pow2(bits - 1));
    }
  }

  lemma Halves(u: nat, base: nat)
    requires base >= 2
    ensures u / base <= u / 2 && 0 <= u / base
  {
    var q := u / base;
    assert u == q * base + u % base;
    assert q * base >= q * 2;
  }

  /** `print_num`; `buf` has length + 70 places, and `out` is what is handed to the output. */
  method PrintNumber(n: nat, base: nat, neg: bool, width: nat, ladjust: bool, pad: char, upcase: bool) returns (out: string)
    requires n < WORD && 2 <= base <= 16
    ensures out == Formatted(n, base, neg, width, ladjust, pad, upcase)
  {
    hide Digits, Reversed, Padded, Fill, Backwards, Sign, Formatted;
    ghost var ds := Digits(n, base, upcase);
    var buf := new char[width + 70](_ => ' ');
    var p := WriteDigits(buf, n, base, upcase);
    p := WriteSign(buf, p, neg, ds);
    var length, padc := PadText(buf, p, width, neg, ladjust, pad, ds);
    ghost var text := buf[..length];
    out := ReverseText(buf, length, if ladjust then p - 1 else length - 1);
    ReversedParts(ds, neg, length, ladjust, padc, text, out);
    FormattedIs(n, base, neg, width, ladjust, pad, upcase, ds, length, padc);
  }

  lemma FormattedIs(u: nat, base: nat, neg: bool, width: nat, ladjust: bool, pad: char, upcase: bool, ds: string, length: nat, padc: char)
    requires 2 <= base <= 16 && ds == Digits(u, base, upcase)
    requires length == Max(width, |ds| + |Sign(neg)|) && padc == if ladjust then ' ' else pad
    ensures |ds| + |Sign(neg)| <= length
    ensures Formatted(u, base, neg, width, ladjust, pad, upcase) == Padded(Reversed(ds), neg, length, ladjust, padc)
  {
    hide Digits, Reversed, Padded;
  }

  /** The sign goes behind the digits. */
  method WriteSign(buf: array<char>, p: nat, neg: bool, ghost ds: string) returns (r: nat)
    requires p == |ds| <= 32 && buf.Length >= 70 && buf[..p] == ds
    modifies buf
    ensures r == |ds| + |Sign(neg)| <= 33 && buf[..r] == ds + Sign(neg)
  {
    r := p;
    if neg {
      buf[p] := '-';
      r := p + 1;
      assert buf[..r] == buf[..p] + ['-'];
    }
  }

  /** The middle of `print_num`: the padding behind the reversed digits. */
  method PadText(buf: array<char>, actualLength: nat, width: nat, neg: bool, ladjust: bool, pad: char, ghost ds: string)
    returns (length: nat, padc: char)
    requires actualLength <= 70 && buf.Length == width + 70 && ds != []
    requires actualLength == |ds| + |Sign(neg)| < 70 && buf[..actualLength] == ds + Sign(neg)
    modifies buf
    ensures length == Max(width, actualLength) < buf.Length && padc == if ladjust then ' ' else pad
    ensures Backwards(ds, neg, length, ladjust, padc, buf[..length])
  {
    hide Fill;
    length := width;
    if length < actualLength {
      length := actualLength;
    }
    padc := pad;
    if ladjust {
      padc := ' ';
    }
    if neg && !ladjust && padc == '0' {
      PutZeros(buf, actualLength, length, ds);
    } else {
      PutPadding(buf, actualLength, length, padc);
    }
  }

  /** The end of `print_num`: places 0 to `end` are reversed and the text is handed out. */
  method ReverseText(buf: array<char>, length: nat, end: int) returns (out: string)
    requires 0 <= end < length < buf.Length
    modifies buf
    ensures out == Reversed(old(buf[..length])[..end + 1]) + old(buf[..length])[end + 1..]
  {
    hide Reversed;
    ReadyToReverse(buf[..], end, length);
    Reverse(buf, end);
    out := buf[..length];
    assert out == buf[..end + 1] + buf[end + 1..][..length - (end + 1)];
  }

  lemma ReadyToReverse(b: string, end: int, length: int)
    requires 0 <= end < length <= |b|
    ensures b[..end + 1] == b[..length][..end + 1] && b[end + 1..][..length - (end + 1)] == b[..length][end + 1..]
  {}

  /** Zero padding of a negative number: the sign moves behind the zeros. */
  method PutZeros(buf: array<char>, actualLength: nat, length: nat, ghost ds: string)
    requires 0 < actualLength <= length < buf.Length && buf[..actualLength] == ds + "-"
    modifies buf
    ensures buf[..length] == ds + Fill('0', length - actualLength) + "-"
  {
    assert |ds| == actualLength - 1 && buf[..|ds|] == ds by {
      assert buf[..actualLength][..|ds|] == ds;
    }
    var i := actualLength - 1;
    while i < length - 1
      invariant actualLength - 1 <= i <= length - 1
      invariant buf[..|ds|] == ds && forall k :: |ds| <= k < i ==> buf[k] == '0'
    {
      buf[i] := '0';
      i := i + 1;
    }
    buf[length - 1] := '-';
    assert buf[..|ds|] == ds;
    assert buf[..length] == buf[..|ds|] + buf[|ds|..length - 1] + [buf[length - 1]];
    assert buf[|ds|..length - 1] == Fill('0', length - actualLength);
  }

  method PutPadding(buf: array<char>, actualLength: nat, length: nat, padc: char)
    requires 0 <= actualLength <= length < buf.Length
    modifies buf
    ensures buf[..length] == old(buf[..actualLength]) + Fill(padc, length - actualLength)
  {
    ghost var text := buf[..actualLength];
    var i := actualLength;
    while i < length
      invariant actualLength <= i <= length
      invariant buf[..actualLength] == text && forall k :: actualLength <= k < i ==> buf[k] == padc
    {
      buf[i] := padc;
      i := i + 1;
    }
    assert buf[..length] == buf[..actualLength] + buf[actualLength..length];
    assert buf[actualLength..length] == Fill(padc, length - actualLength);
  }

  /** The digit loop. */
  method WriteDigits(buf: array<char>, n: nat, base: nat, upcase: bool) returns (p: nat)
    requires n < WORD && 2 <= base <= 16 && buf.Length >= 70
    modifies buf
    ensures p == |Digits(n, base, upcase)| <= 32 && buf[..p] == Digits(n, base, upcase)
  {
    hide Digits, DigitChar, Pow2;
    ghost var ds := Digits(n, base, upcase);
    WordIsPow2();
    FewDigits(n, base, upcase, 32, WORD);
    var u: nat := n;
    p := 0;
    while true
      invariant 0 <= p < |ds| <= 32 && buf[..p] == ds[..p] && ds[p..] == Digits(u, base, upcase)
      decreases u
    {
      DivMod(u, base);
      FirstDigit(u, base, upcase, ds, p);
      PutDigit(buf, p, u % base, upcase);
      assert buf[..p + 1] == buf[..p] + [buf[p]] && ds[..p + 1] == ds[..p] + [ds[p]];
      p := p + 1;
      u := u / base;
      if u == 0 {
        break;
      }
    }
    assert ds[..p] == ds;
  }

  /** The digit that is written next, and the digits after it. */
  lemma FirstDigit(u: nat, base: nat, upcase: bool, ds: string, p: nat)
    requires 2 <= base <= 16 && p < |ds| && ds[p..] == Digits(u, base, upcase)
    ensures 0 <= u % base < 16 && ds[p] == DigitChar(u % base, upcase)
    ensures u / base == 0 ==> p + 1 == |ds|
    ensures u / base > 0 ==> p + 1 < |ds| && ds[p + 1..] == Digits(u / base, base, upcase)
  {
    hide DigitChar;
    DivMod(u, base);
    assert ds[p] == ds[p..][0] && ds[p + 1..] == ds[p..][1..];
  }

  method PutDigit(buf: array<char>, p: nat, tmp: nat, upcase: bool)
    requires p < buf.Length && tmp < 16
    modifies buf
    ensures buf[..] == old(buf[..])[p := DigitChar(tmp, upcase)]
  {
    if tmp <= 9 {
      buf[p] := '0' + tmp as char;
    } else if upcase {
      buf[p] := 'A' + (tmp - 10) as char;
    } else {
      buf[p] := 'a' + (tmp - 10) as char;
    }
  }

  /** The reversal loop, on the places 0 to `last`. */
  method Reverse(buf: array<char>, last: int)
    requires 0 <= last < buf.Length
    modifies buf
    ensures buf[..last + 1] == Reversed(old(buf[..last + 1])) && buf[last + 1..] == old(buf[last + 1..])
  {
    var begin, end := 0, last;
    while end > begin
      invariant 0 <= begin <= end + 1 && begin + end == last
      invariant forall k :: 0 <= k < begin ==> buf[k] == old(buf[last - k]) && buf[last - k] == old(buf[k])
      invariant forall k :: begin <= k <= end ==> buf[k] == old(buf[k])
      invariant forall k :: last < k < buf.Length ==> buf[k] == old(buf[k])
    {
      var tmp := buf[begin];
      buf[begin] := buf[end];
      buf[end] := tmp;
      begin := begin + 1;
      end := end - 1;
    }
    assert forall k :: 0 <= k <= last ==> buf[k] == old(buf[last - k]);
  }

  /** What the text in the buffer is before it is reversed. */
  ghost predicate Backwards(ds: string, neg: bool, length: nat, ladjust: bool, padc: char, text: string) {
    |ds| + |Sign(neg)| <= length &&
    text == if neg && !ladjust && padc == '0' then ds + Fill('0', length - |ds| - 1) + "-"
            else ds + Sign(neg) + Fill(padc, length - |ds| - |Sign(neg)|)
  }

  /** Reversing the text, or its part before the padding, puts sign, padding and digits in their places. */
  lemma ReversedParts(ds: string, neg: bool, length: nat, ladjust: bool, padc: char, text: string, out: string)
    requires Backwards(ds, neg, length, ladjust, padc, text)
    requires |text| == length
    requires out == if ladjust then Reversed(text[..|ds| + |Sign(neg)|]) + text[|ds| + |Sign(neg)|..]
                    else Reversed(text[..length]) + text[length..]
    ensures out == Padded(Reversed(ds), neg, length, ladjust, padc)
  {
    hide Reversed, Fill;
    var n := |ds| + |Sign(neg)|;
    ReverseSign(neg);
    if ladjust {
      LeftPart(ds, Sign(neg), Fill(padc, length - n), text);
    } else {
      assert text[..length] == text && text[length..] == [];
      RightPart(ds, neg, length, padc, text);
    }
  }

  lemma RightPart(ds: string, neg: bool, length: nat, padc: char, text: string)
    requires Backwards(ds, neg, length, false, padc, text)
    ensures Reversed(text) + [] == Padded(Reversed(ds), neg, length, false, padc)
  {
    hide Reversed, Fill;
    var n := |ds| + |Sign(neg)|;
    ReverseSign(neg);
    ReverseFill('0', length - n);
    ReverseFill(padc, length - n);
    if neg && padc == '0' {
      ThreeReversed(ds, Fill('0', length - n), "-");
    } else {
      ThreeReversed(ds, Sign(neg), Fill(padc, length - n));
    }
  }

  lemma ReverseSign(neg: bool)
    ensures Reversed(Sign(neg)) == Sign(neg) && Reversed("-") == "-"
  {}

  lemma LeftPart(ds: string, sign: string, pad: string, text: string)
    requires text == ds + sign + pad
    ensures Reversed(text[..|ds| + |sign|]) + text[|ds| + |sign|..] == Reversed(sign) + Reversed(ds) + pad
  {
    assert text[..|ds| + |sign|] == ds + sign && text[|ds| + |sign|..] == pad;
    ReverseJoins(ds, sign);
  }

  lemma ThreeReversed(a: string, b: string, c: string)
    ensures Reversed(a + b + c) + [] == Reversed(c) + Reversed(b) + Reversed(a)
  {
    ReverseJoins(a + b, c);
    ReverseJoins(a, b);
    hide Reversed;
    assert Reversed(c) + (Reversed(b) + Reversed(a)) == Reversed(c) + Reversed(b) + Reversed(a);
  }
}
