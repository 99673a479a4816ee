/** Printing a `cancellation_type`, a 32-bit mask, and reading it back. */
module CancellationFormatter {
  import opened Wrappers

  const WORD := 0x1_0000_0000
  const ALL := WORD - 1

  type Mask = n: int | 0 <= n < WORD

  datatype Flag = Terminal | Partial | Total

  function Bit(flag: Flag): nat {
    match flag
    case Terminal => 1
    case Partial => 2
    case Total => 4
  }

  /** Is the flag's bit set? */
  predicate Has(mask: nat, flag: Flag) {
    match flag
    case Terminal => mask % 2 == 1
    case Partial => mask / 2 % 2 == 1
    case Total => mask / 2 / 2 % 2 == 1
  }

  /** The mask without the three flags. */
  function Rest(mask: nat): nat {
    mask / 2 / 2 / 2 * 8
  }

  /** The value of the flag's bit in the mask. */
  function Part(mask: nat, flag: Flag): nat {
    if Has(mask, flag) then Bit(flag) else 0
  }

  // Hexadecimal numbers

  const DIGITS := "0123456789abcdef"

  function Hex(n: nat): (s: string)
    ensures s != ""
  {
    if n < 16 then [DIGITS[n]] else Hex(n / 16) + [DIGITS[n % 16]]
  }

  function DigitValue(c: char): (d: nat)
    ensures d <= 16
  {
    if '0' <= c <= '9' then c as int - '0' as int
    else if 'a' <= c <= 'f' then c as int - 'a' as int + 10
    else 16
  }

  function ParseHex(s: string): Option<nat> {
    if s == "" then Some(0)
    else
      var front, d := ParseHex(s[..|s| - 1]), DigitValue(s[|s| - 1]);
      if front.None? || d == 16 then None else Some(16 * front.value + d)
  }

  lemma DigitRoundTrip(d: nat)
    requires d < 16
    ensures DigitValue(DIGITS[d]) == d
  {
  }

  lemma {:induction false} HexRoundTrip(n: nat)
    ensures ParseHex(Hex(n)) == Some(n)
  {
    DigitRoundTrip(n % 16);
    var s := Hex(n);
    if n < 16 {
      assert s[..|s| - 1] == "";
    } else {
      HexRoundTrip(n / 16);
      assert s[..|s| - 1] == Hex(n / 16);
    }
  }

  // Printing

  /** Two texts with a bar between them, if there are two. */
  function Bar(a: string, b: string): string {
    if a == "" then b else if b == "" then a else a + "|" + b
  }

  lemma BarIsAssociative(a: string, b: string, c: string)
    ensures Bar(Bar(a, b), c) == Bar(a, Bar(b, c))
  {
    if a != "" && b != "" && c != "" {
      assert a + "|" + b + "|" + c == a + "|" + (b + "|" + c);
    }
  }

  function Name(present: bool, name: string): string {
    if present then name else ""
  }

  function Remainder(rest: nat): string {
    if rest == 0 then "" else "0x" + Hex(rest)
  }

  function Flags(terminal: bool, partial: bool, total: bool, remainder: string): string {
    Bar(Name(terminal, "terminal"), Bar(Name(partial, "partial"), Bar(Name(total, "total"), remainder)))
  }

  function Format(mask: Mask): string {
    if mask == 0 then "none"
    else if mask == ALL then "all"
    else Flags(Has(mask, Terminal), Has(mask, Partial), Has(mask, Total), Remainder(Rest(mask)))
  }

  /** One `append_if` of the formatter: prints a flag that is set, remembers that something was
      printed, and clears the flag. */
  method AppendIf(out: string, first: bool, mask: Mask, flag: Flag, name: string)
    returns (out': string, first': bool, mask': Mask)
    requires name != "" && (first <==> out == "")
    ensures out' == Bar(out, Name(Has(mask, flag), name)) && (first' <==> out' == "")
    ensures mask' == mask - Part(mask, flag)
  {
    out', first', mask' := out, first, mask;
    if Has(mask, flag) {
      out' := out + (if first then "" else "|") + name;
      first' := false;
      mask' := mask - Bit(flag);
    }
  }

  /** Clearing the flags one by one leaves the others alone and ends with the remainder. */
  lemma FlagsAreIndependent(mask: Mask)
    ensures var m1 := mask - Part(mask, Terminal);
            var m2 := m1 - Part(mask, Partial);
            && m1 >= 0 && Has(m1, Partial) == Has(mask, Partial)
            && m2 >= 0 && Has(m2, Total) == Has(mask, Total)
            && m2 - Part(mask, Total) == Rest(mask)
  {
    var h := mask / 2;
    var k := h / 2;
    assert mask == 2 * h + Part(mask, Terminal) && 2 * h == 4 * k + Part(mask, Partial);
    assert 2 * h / 2 == h && 4 * k / 2 == 2 * k && 2 * k / 2 == k;
  }

  /** The three flags, from the left, and what is left of the mask. */
  method AppendFlags(mask: Mask) returns (out: string, first: bool, rest: Mask)
    ensures out == Bar(Bar(Name(Has(mask, Terminal), "terminal"), Name(Has(mask, Partial), "partial")), Name(Has(mask, Total), "total"))
    ensures first <==> out == ""
    ensures rest == Rest(mask)
  {
    FlagsAreIndependent(mask);
    out, first, rest := AppendIf("", true, mask, Terminal, "terminal");
    out, first, rest := AppendIf(out, first, rest, Partial, "partial");
    out, first, rest := AppendIf(out, first, rest, Total, "total");
  }

  /** The formatter: flag after flag from the left, then what is left in hexadecimal. */
  method FormatMask(mask: Mask) returns (out: string)
    ensures out == Format(mask)
  {
    if mask == 0 {
      return "none";
    }
    if mask == ALL {
      return "all";
    }
    var flags, first, rest := AppendFlags(mask);
    out := flags;
    if rest != 0 {
      out := out + (if first then "" else "|") + ("0x" + Hex(rest));
    }
    assert out == Bar(flags, Remainder(rest));
    LeftToRight(Has(mask, Terminal), Has(mask, Partial), Has(mask, Total), Remainder(rest));
  }

  lemma LeftToRight(terminal: bool, partial: bool, total: bool, remainder: string)
    ensures Bar(Bar(Bar(Name(terminal, "terminal"), Name(partial, "partial")), Name(total, "total")), remainder)
         == Flags(terminal, partial, total, remainder)
  {
    var t, p, o := Name(terminal, "terminal"), Name(partial, "partial"), Name(total, "total");
    BarIsAssociative(Bar(t, p), o, remainder);
    BarIsAssociative(t, p, Bar(o, remainder));
  }

  // Reading back

  /** Takes `name`, and a bar after it, off the front of `s` if `s` starts with it. */
  function Take(s: string, name: string): (bool, string) {
    if !(name <= s) then (false, s)
    else if |s| > |name| && s[|name|] == '|' then (true, s[|name| + 1..])
    else (true, s[|name|..])
  }

  /** The flags at the front of `s`, and what follows them. */
  function TakeFlags(s: string): (bool, bool, bool, string) {
    var (terminal, s1) := Take(s, "terminal");
    var (partial, s2) := Take(s1, "partial");
    var (total, s3) := Take(s2, "total");
    (terminal, partial, total, s3)
  }

  function Value(terminal: bool, partial: bool, total: bool): nat {
    (if terminal then 1 else 0) + (if partial then 2 else 0) + (if total then 4 else 0)
  }

  function Parse(s: string): Option<int> {
    if s == "none" then Some(0)
    else if s == "all" then Some(ALL)
    else
      var (terminal, partial, total, rest) := TakeFlags(s);
      AddRemainder(Value(terminal, partial, total), rest)
  }

  function AddRemainder(value: nat, rest: string): Option<int> {
    if rest == "" then Some(value)
    else if !("0x" <= rest) then None
    else
      var n := ParseHex(rest[2..]);
      if n.None? then None else Some(value + n.value)
  }

  lemma TakeInvertsBar(present: bool, name: string, tail: string)
    requires name != "" && !(name <= tail)
    ensures Take(Bar(Name(present, name), tail), name) == (present, tail)
  {
    if present {
      var s := Bar(name, tail);
      assert s[..|name|] == name;
      if tail == "" {
        assert s[|name|..] == "";
      } else {
        assert s[|name|] == '|' && s[|name| + 1..] == tail;
      }
    }
  }

  /** A text that differs from `name` at position `k` does not start with it. */
  lemma Differs(name: string, s: string, k: nat)
    requires k < |name| && (k < |s| ==> s[k] != name[k])
    ensures !(name <= s)
  {
  }

  lemma TakeFlagsInvertsFlags(terminal: bool, partial: bool, total: bool, remainder: string)
    requires remainder != "" ==> remainder[0] == '0'
    ensures TakeFlags(Flags(terminal, partial, total, remainder)) == (terminal, partial, total, remainder)
  {
    var o := Bar(Name(total, "total"), remainder);
    var p := Bar(Name(partial, "partial"), o);
    Differs("total", remainder, 0);
    assert o != "" ==> o[0] == '0' || (o[0] == 't' && |o| > 1 && o[1] == 'o');
    Differs("partial", o, 0);
    assert p != "" ==> p[0] == '0' || p[0] == 'p' || (p[0] == 't' && |p| > 1 && p[1] == 'o');
    if p != "" && p[0] == 't' { Differs("terminal", p, 1); } else { Differs("terminal", p, 0); }
    TakeInvertsBar(total, "total", remainder);
    TakeInvertsBar(partial, "partial", o);
    TakeInvertsBar(terminal, "terminal", p);
  }

  lemma FlagsStartWith(terminal: bool, partial: bool, total: bool, remainder: string)
    requires remainder != "" ==> remainder[0] == '0'
    requires terminal || partial || total || remainder != ""
    ensures var s := Flags(terminal, partial, total, remainder);
            s != "" && s != "none" && s != "all"
  {
    var s := Flags(terminal, partial, total, remainder);
    assert s != "" && (s[0] == 't' || s[0] == 'p' || s[0] == '0');
    assert "none"[0] == 'n' && "all"[0] == 'a';
  }

  lemma RemainderRoundTrip(rest: nat)
    requires rest != 0
    ensures var r := Remainder(rest);
            |r| > 2 && r[0] == '0' && r[..2] == "0x" && ParseHex(r[2..]) == Some(rest)
  {
    HexRoundTrip(rest);
    assert Remainder(rest)[2..] == Hex(rest);
  }

  lemma ParseOf(s: string, terminal: bool, partial: bool, total: bool, r: string)
    requires s != "none" && s != "all" && TakeFlags(s) == (terminal, partial, total, r)
    ensures Parse(s) == AddRemainder(Value(terminal, partial, total), r)
  {
  }

  /** Reading back any combination of flags in front of any text that does not look like one. */
  lemma ParseInvertsFlagList(terminal: bool, partial: bool, total: bool, r: string)
    requires terminal || partial || total || r != ""
    requires r != "" ==> r[0] == '0'
    ensures Parse(Flags(terminal, partial, total, r)) == AddRemainder(Value(terminal, partial, total), r)
  {
    FlagsStartWith(terminal, partial, total, r);
    TakeFlagsInvertsFlags(terminal, partial, total, r);
    ParseOf(Flags(terminal, partial, total, r), terminal, partial, total, r);
  }

  /** Reading back any combination of flags and remainder. */
  lemma ParseInvertsFlags(terminal: bool, partial: bool, total: bool, rest: nat)
    requires terminal || partial || total || rest != 0
    ensures Parse(Flags(terminal, partial, total, Remainder(rest))) == Some(Value(terminal, partial, total) + rest)
  {
    if rest != 0 {
      RemainderRoundTrip(rest);
    }
    ParseInvertsFlagList(terminal, partial, total, Remainder(rest));
  }

  lemma MaskParts(mask: Mask)
    ensures Value(Has(mask, Terminal), Has(mask, Partial), Has(mask, Total)) + Rest(mask) == mask
  {
    FlagsAreIndependent(mask);
  }

  /** Every mask is recovered from what it prints as. */
  lemma RoundTrip(mask: Mask)
    ensures Parse(Format(mask)) == Some(mask)
  {
    if mask != 0 && mask != ALL {
      var t, p, o, rest := Has(mask, Terminal), Has(mask, Partial), Has(mask, Total), Rest(mask);
      MaskParts(mask);
      calc {
        Parse(Format(mask));
        Parse(Flags(t, p, o, Remainder(rest)));
        { ParseInvertsFlags(t, p, o, rest); }
        Some(Value(t, p, o) + rest);
        Some(mask);
      }
    }
  }

  /** The two names for whole masks are used for just these masks. */
  lemma WholeMasks(mask: Mask)
    ensures Format(mask) == "none" <==> mask == 0
    ensures Format(mask) == "all" <==> mask == 0xffff_ffff
  {
    RoundTrip(mask);
  }

  /** The number with the hexadecimal digits `ds`, and the digits as text. */
  function FromDigits(ds: seq<nat>): nat {
    if ds == [] then 0 else 16 * FromDigits(ds[..|ds| - 1]) + ds[|ds| - 1]
  }

  function DigitsText(ds: seq<nat>): string
    requires forall i :: 0 <= i < |ds| ==> ds[i] < 16
  {
    if ds == [] then "" else DigitsText(ds[..|ds| - 1]) + ["0123456789abcdef"[ds[|ds| - 1]]]
  }

  lemma HexSnoc(n: nat, d: nat, m: nat)
    requires 0 < n && d < 16 && m == 16 * n + d
    ensures Hex(m) == Hex(n) + [DIGITS[d]]
  {
    assert m / 16 == n && m % 16 == d;
  }

  /** A number prints as its hexadecimal digits, the first of which is not zero. */
  lemma {:induction false} HexPrintsDigits(ds: seq<nat>)
    requires ds != [] && ds[0] > 0 && forall i :: 0 <= i < |ds| ==> ds[i] < 16
    ensures FromDigits(ds) > 0 && Hex(FromDigits(ds)) == DigitsText(ds)
    decreases |ds|
  {
    var front, last := ds[..|ds| - 1], ds[|ds| - 1];
    if |ds| == 1 {
      assert front == [] && FromDigits(ds) == last;
      assert "" + [DIGITS[last]] == [DIGITS[last]];
    } else {
      HexPrintsDigits(front);
      HexSnoc(FromDigits(front), last, FromDigits(ds));
    }
  }

  /** The mask in parts. */
  lemma PartsOfMask(mask: nat, terminal: bool, partial: bool, total: bool, q: nat)
    requires mask == Value(terminal, partial, total) + 8 * q
    ensures Has(mask, Terminal) == terminal && Has(mask, Partial) == partial && Has(mask, Total) == total
    ensures Rest(mask) == 8 * q
  {
    assert mask / 2 == (if partial then 1 else 0) + (if total then 2 else 0) + 4 * q;
    assert mask / 2 / 2 == (if total then 1 else 0) + 2 * q;
    assert mask / 2 / 2 / 2 == q;
  }

  /** The names of the flags with the values 1, 2 and 4, in this order and with bars between
      them, and what is left of the mask last, as its hexadecimal digits. */
  lemma FormatByParts(mask: Mask, terminal: bool, partial: bool, total: bool, q: nat, ds: seq<nat>)
    requires mask == Value(terminal, partial, total) + 8 * q && mask != 0xffff_ffff
    requires q > 0 && ds != [] && ds[0] > 0 && (forall i :: 0 <= i < |ds| ==> ds[i] < 16) && FromDigits(ds) == 8 * q
    ensures Format(mask)
         == Before(terminal, "terminal") + (Before(partial, "partial") + (Before(total, "total") + ("0x" + DigitsText(ds))))
  {
    assert Format(mask) == Flags(terminal, partial, total, Remainder(8 * q)) by {
      PartsOfMask(mask, terminal, partial, total, q);
    }
    assert Remainder(8 * q) == "0x" + DigitsText(ds) by { HexPrintsDigits(ds); }
    BarsBetween(terminal, partial, total, "0x" + DigitsText(ds));
  }

  function Before(present: bool, name: string): string {
    if present then name + "|" else ""
  }

  lemma BarBefore(present: bool, name: string, tail: string)
    requires name != "" && tail != ""
    ensures Bar(Name(present, name), tail) == Before(present, name) + tail
  {
  }

  lemma BarsBetween(terminal: bool, partial: bool, total: bool, tail: string)
    requires tail != ""
    ensures Flags(terminal, partial, total, tail)
         == Before(terminal, "terminal") + (Before(partial, "partial") + (Before(total, "total") + tail))
  {
    BarBefore(total, "total", tail);
    BarBefore(partial, "partial", Before(total, "total") + tail);
    BarBefore(terminal, "terminal", Before(partial, "partial") + (Before(total, "total") + tail));
  }

  /** Without anything left the names stand alone. */
  lemma FlagNames(total: bool)
    ensures Flags(true, true, total, "") == "terminal|partial" + (if total then "|total" else "")
    ensures Flags(true, false, total, "") == "terminal" + (if total then "|total" else "")
    ensures Flags(false, true, total, "") == "partial" + (if total then "|total" else "")
    ensures Flags(false, false, total, "") == (if total then "total" else "")
  {
  }

  lemma FormatNames(mask: Mask, terminal: bool, partial: bool, total: bool)
    requires mask == Value(terminal, partial, total) && mask > 0
    ensures Format(mask) == Flags(terminal, partial, total, "")
  {
    PartsOfMask(mask, terminal, partial, total, 0);
  }

  /** Distinct values print differently. */
  lemma FormatIsInjective(a: Mask, b: Mask)
    requires Format(a) == Format(b)
    ensures a == b
  {
    RoundTrip(a);
    RoundTrip(b);
  }
}
