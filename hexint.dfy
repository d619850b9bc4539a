/** Python's `int(text, 16)`, the parse `get_balance` applies to an Ethereum
    node's `result` field. The grammar follows CPython's numeral scanner for
    base 16: optional surrounding whitespace, one optional sign, an optional
    `0x`/`0X` prefix that may be followed by one underscore, then hex digits
    with single underscores allowed between them. Anything else raises
    ValueError, modelled as `None`. */
module HexInt {
  import opened Wrappers
  import Text

  predicate IsHexDigit(c: char) {
    ('0' <= c <= '9') || ('a' <= c <= 'f') || ('A' <= c <= 'F')
  }

  predicate AllHex(s: string) {
    forall i :: 0 <= i < |s| ==> IsHexDigit(s[i])
  }

  /** The value of one hex digit, either case. */
  function Nibble(c: char): (v: nat)
    requires IsHexDigit(c)
    ensures v < 16
  {
    if c <= '9' then c as int - '0' as int
    else if c <= 'F' then c as int - 'A' as int + 10
    else c as int - 'a' as int + 10
  }

  /** The lower-case digit for a value below 16. */
  function HexChar(v: nat): (c: char)
    requires v < 16
    ensures IsHexDigit(c) && Nibble(c) == v
    ensures ('0' <= c <= '9') || ('a' <= c <= 'f')
  {
    if v < 10 then ('0' as int + v) as char else ('a' as int + v - 10) as char
  }

  /** Checks `digit ('_'? digit)*` and returns the digits with the separating
      underscores dropped; `None` for an empty run, a leading, trailing or
      doubled underscore, or any other character. */
  function Ungroup(s: string): (r: Option<string>)
    ensures r.Some? ==> r.value != [] && AllHex(r.value) && |r.value| <= |s|
  {
    if s == [] || !IsHexDigit(s[0]) then None
    else if |s| == 1 then Some(s)
    else
      var rest := if s[1] == '_' then s[2..] else s[1..];
      match Ungroup(rest)
      case None => None
      case Some(ds) => Some([s[0]] + ds)
  }

  /** The value of a big-endian string of hex digits. */
  function Numeral(ds: string): nat
    requires AllHex(ds)
  {
    if ds == [] then 0 else Numeral(ds[..|ds| - 1]) * 16 + Nibble(ds[|ds| - 1])
  }

  /** Skips a `0x` or `0X` prefix and the one underscore allowed after it. */
  function DropRadixPrefix(u: string): string {
    if |u| >= 2 && u[0] == '0' && (u[1] == 'x' || u[1] == 'X') then
      if |u| >= 3 && u[2] == '_' then u[3..] else u[2..]
    else
      u
  }

  /** `int(s, 16)`: `Some(value)`, or `None` where Python raises ValueError. */
  function ParseHexInt(s: string): Option<int> {
    ParseSigned(Text.Strip(s, Text.IsIntSpace))
  }

  /** The numeral once surrounding whitespace is gone: sign, prefix, digits. */
  function ParseSigned(t: string): Option<int> {
    match Ungroup(DropRadixPrefix(Unsigned(t)))
    case None => None
    case Some(ds) =>
      var magnitude: int := Numeral(ds);
      Some(if Negative(t) then -magnitude else magnitude)
  }

  /** The numeral starts with a minus sign. */
  predicate Negative(t: string) {
    |t| > 0 && t[0] == '-'
  }

  /** The numeral without its one optional sign. */
  function Unsigned(t: string): string {
    if |t| > 0 && (t[0] == '-' || t[0] == '+') then t[1..] else t
  }

  /** The digit-group grammar `digit ('_'? digit)*`, stated by position: only
      hex digits and underscores, a digit at both ends, and no two underscores
      next to each other. */
  predicate Grouped(s: string) {
    s != [] && IsHexDigit(s[0]) && IsHexDigit(s[|s| - 1])
    && (forall i :: 0 <= i < |s| ==> IsHexDigit(s[i]) || s[i] == '_')
    && (forall i :: 0 <= i < |s| - 1 ==> IsHexDigit(s[i]) || IsHexDigit(s[i + 1]))
  }

  /** `s` with every underscore dropped. */
  function Digits(s: string): (d: string)
    ensures (forall i :: 0 <= i < |s| ==> IsHexDigit(s[i]) || s[i] == '_') ==> AllHex(d)
  {
    if s == [] then []
    else if s[0] == '_' then Digits(s[1..])
    else [s[0]] + Digits(s[1..])
  }

  /** The digit-group scan accepts exactly the strings of the grammar, and
      what it returns is their digits in order. */
  lemma {:induction false} UngroupSpec(s: string)
    ensures Ungroup(s).Some? <==> Grouped(s)
    ensures Ungroup(s).Some? ==> Ungroup(s).value == Digits(s)
    decreases |s|
  {
    if s != [] && IsHexDigit(s[0]) {
      if |s| == 1 {
        assert Digits(s) == [s[0]] + Digits(s[1..]);
        assert s == [s[0]];
      } else {
        var rest := if s[1] == '_' then s[2..] else s[1..];
        UngroupSpec(rest);
        GroupedStep(s);
        assert Digits(s) == [s[0]] + Digits(s[1..]);
        if s[1] == '_' {
          assert s[1..][1..] == s[2..];
          assert Digits(s[1..]) == Digits(s[2..]);
        }
      }
    }
  }

  /** One step of the grammar: after a leading digit comes either the rest of
      the grammar, or one underscore and then the rest. */
  lemma GroupedStep(s: string)
    requires |s| >= 2 && IsHexDigit(s[0])
    ensures Grouped(s) <==> Grouped(if s[1] == '_' then s[2..] else s[1..])
  {
    var k := if s[1] == '_' then 2 else 1;
    var rest := s[k..];
    assert forall i :: 0 <= i < |rest| ==> rest[i] == s[i + k];
    if Grouped(s) {
      if s[1] == '_' {
        assert IsHexDigit(s[1]) || IsHexDigit(s[2]);
      }
      assert Grouped(rest);
    }
    if Grouped(rest) {
      assert forall i :: 0 <= i < |s| ==> IsHexDigit(s[i]) || s[i] == '_' by {
        forall i | 0 <= i < |s| ensures IsHexDigit(s[i]) || s[i] == '_' {
          if i >= k { assert s[i] == rest[i - k]; }
        }
      }
      assert forall i :: 0 <= i < |s| - 1 ==> IsHexDigit(s[i]) || IsHexDigit(s[i + 1]) by {
        forall i | 0 <= i < |s| - 1 ensures IsHexDigit(s[i]) || IsHexDigit(s[i + 1]) {
          if i >= k { assert s[i] == rest[i - k] && s[i + 1] == rest[i + 1 - k]; }
          else if i == 1 { assert s[2] == rest[0]; }
        }
      }
      assert s[|s| - 1] == rest[|rest| - 1];
    }
  }

  /** What a numeral without surrounding whitespace reads as: `None` exactly
      when the part after the sign and the prefix is outside the grammar,
      and otherwise the value of its digits, negated after a minus sign. */
  lemma ParseSignedSpec(t: string)
    ensures ParseSigned(t).None? <==> !Grouped(DropRadixPrefix(Unsigned(t)))
    ensures ParseSigned(t).Some? ==>
              var magnitude: int := Numeral(Digits(DropRadixPrefix(Unsigned(t))));
              ParseSigned(t).value == if Negative(t) then -magnitude else magnitude
  {
    UngroupSpec(DropRadixPrefix(Unsigned(t)));
  }

  /** `int(s, 16)` raises exactly when what is left after stripping the
      whitespace it skips, one sign and the prefix is outside the grammar;
      otherwise it returns the signed value of the digits. */
  lemma ParseHexIntSpec(s: string)
    ensures var body := DropRadixPrefix(Unsigned(Text.Strip(s, Text.IsIntSpace)));
            ParseHexInt(s).None? <==> !Grouped(body)
    ensures var t := Text.Strip(s, Text.IsIntSpace);
            var body := DropRadixPrefix(Unsigned(t));
            ParseHexInt(s).Some? ==>
              var magnitude: int := Numeral(Digits(body));
              ParseHexInt(s).value == if Negative(t) then -magnitude else magnitude
  {
    ParseSignedSpec(Text.Strip(s, Text.IsIntSpace));
  }

  /** The shortest lower-case hex spelling of `n`, as a JSON-RPC quantity is
      written after its `0x`. */
  function ToHex(n: nat): (s: string)
    ensures s != [] && AllHex(s)
  {
    if n < 16 then [HexChar(n)] else ToHex(n / 16) + [HexChar(n % 16)]
  }

  /** The spelling is Python's `hex(n)` after its `0x`: lower-case digits
      only, and no leading zero unless `n` is zero. */
  lemma {:induction false} ToHexSpelling(n: nat)
    ensures forall i :: 0 <= i < |ToHex(n)| ==> ('0' <= ToHex(n)[i] <= '9') || ('a' <= ToHex(n)[i] <= 'f')
    ensures n > 0 ==> ToHex(n)[0] != '0'
  {
    if n >= 16 {
      ToHexSpelling(n / 16);
    }
  }

  /** A run of plain digits passes the underscore grammar unchanged. */
  lemma {:induction false} UngroupPlain(s: string)
    requires s != [] && AllHex(s)
    ensures Ungroup(s) == Some(s)
  {
    if |s| > 1 {
      UngroupPlain(s[1..]);
      assert [s[0]] + s[1..] == s;
    }
  }

  /** `Numeral` inverts `ToHex`. */
  lemma {:induction false} NumeralOfToHex(n: nat)
    ensures Numeral(ToHex(n)) == n
  {
    if n >= 16 {
      NumeralOfToHex(n / 16);
      var s := ToHex(n / 16) + [HexChar(n % 16)];
      assert s[..|s| - 1] == ToHex(n / 16);
    } else {
      assert ToHex(n)[..0] == [];
    }
  }

  /** A numeral that neither starts nor ends with whitespace is parsed as it is. */
  lemma ParseUnpadded(s: string)
    requires s != [] && !Text.IsIntSpace(s[0]) && !Text.IsIntSpace(s[|s| - 1])
    ensures ParseHexInt(s) == ParseSigned(s)
  {
    Text.StripKeeps(s, Text.IsIntSpace);
  }

  /** Round trip: a node's quantity `0x…` parses back to the number it spells. */
  lemma HexRoundTrip(n: nat)
    ensures ParseHexInt("0x" + ToHex(n)) == Some(n)
  {
    var h := ToHex(n);
    NumeralOfToHex(n);
    UngroupPlain(h);
    var p := "0x" + h;
    assert p[2..] == h;
    assert IsHexDigit(h[0]);
    assert DropRadixPrefix(p) == h;
    assert ParseSigned(p) == Some(n);
    assert p[|p| - 1] == h[|h| - 1];
    ParseUnpadded(p);
  }

  /** The bare digits, without `0x`, parse back too. */
  lemma BareHexRoundTrip(n: nat)
    ensures ParseHexInt(ToHex(n)) == Some(n)
  {
    NumeralOfToHex(n);
    ParseBareDigits(ToHex(n));
  }

  lemma HexIsNotSpace(c: char)
    requires IsHexDigit(c)
    ensures !Text.IsIntSpace(c) && c != '-' && c != '+'
  {
  }

  /** A run of hex digits alone is read as a base-16 numeral. */
  lemma ParseBareDigits(h: string)
    requires h != [] && AllHex(h)
    ensures ParseHexInt(h) == Some(Numeral(h))
  {
    SignedBareDigits(h);
    HexIsNotSpace(h[0]);
    HexIsNotSpace(h[|h| - 1]);
    ParseUnpadded(h);
  }

  /** Digits alone carry no sign and no prefix. */
  lemma SignedBareDigits(h: string)
    requires h != [] && AllHex(h)
    ensures ParseSigned(h) == Some(Numeral(h))
  {
    UngroupPlain(h);
    HexIsNotSpace(h[0]);
    assert DropRadixPrefix(h) == h by {
      assert |h| >= 2 ==> IsHexDigit(h[1]);
    }
  }

  /** Whitespace around a numeral is skipped, whatever the numeral is. */
  lemma ParsePadded(a: string, t: string, b: string)
    requires Text.AllIn(a, Text.IsIntSpace) && Text.AllIn(b, Text.IsIntSpace)
    requires t != [] && !Text.IsIntSpace(t[0]) && !Text.IsIntSpace(t[|t| - 1])
    ensures ParseHexInt(a + t + b) == ParseSigned(t)
  {
    Text.StripPadding(a, t, b, Text.IsIntSpace);
  }

  /** Upper- and lower-case digits and the `0x` prefix are accepted. */
  lemma PrefixedSpelling()
    ensures ParseSigned("0x1A") == Some(26)
  {
    assert DropRadixPrefix("0x1A") == "1A" by { assert "0x1A"[2..] == "1A"; }
    UngroupPlain("1A");
    assert Numeral("1A") == 26 by {
      assert "1A"[..1] == "1";
      assert "1"[..0] == "";
    }
  }

  /** A leading `+` is accepted. */
  lemma PlusSpelling()
    ensures ParseSigned("+ff") == Some(255)
  {
    assert "+ff"[1..] == "ff";
    UngroupPlain("ff");
    assert Numeral("ff") == 255 by {
      assert "ff"[..1] == "f";
      assert "f"[..0] == "";
    }
  }

  /** A minus sign, an upper-case prefix, the underscore after it and one
      between digits are all accepted. */
  lemma GroupedSpelling()
    ensures ParseSigned("-0X_f_f") == Some(-255)
  {
    assert "-0X_f_f"[1..] == "0X_f_f";
    assert DropRadixPrefix("0X_f_f") == "f_f" by { assert "0X_f_f"[3..] == "f_f"; }
    assert Ungroup("f_f") == Some("ff") by {
      assert "f_f"[2..] == "f";
      assert Ungroup("f") == Some("f");
      assert ['f'] + "f" == "ff";
    }
    assert Numeral("ff") == 255 by {
      assert "ff"[..1] == "f";
      assert "f"[..0] == "";
    }
  }

  /** A prefix without digits, two underscores in a row and a trailing
      underscore raise. */
  lemma RejectedSpellings()
    ensures ParseSigned("0x") == None
    ensures ParseSigned("0x__1") == None
    ensures ParseSigned("1_") == None
  {
    assert DropRadixPrefix("0x") == "";
    assert DropRadixPrefix("0x__1") == "_1" by { assert "0x__1"[3..] == "_1"; }
    assert "1_"[2..] == "";
  }

  /** Whitespace around the numeral is skipped, including a newline. */
  lemma PaddedSpelling()
    ensures ParseHexInt(" -0X_f_f\n") == Some(-255)
  {
    assert " -0X_f_f\n" == " " + "-0X_f_f" + "\n";
    ParsePadded(" ", "-0X_f_f", "\n");
    GroupedSpelling();
  }
}
