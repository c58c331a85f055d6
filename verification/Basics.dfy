/** Bytes, C strings and the two string services the program takes from its libraries:
    printf-style formatting of a bare value and hexadecimal printing of a routing id. */
module Basics {

  datatype Option<+T> = None | Some(value: T) {
    predicate IsFailure() {
      None?
    }

    function PropagateFailure<U>(): Option<U>
      requires None?
    {
      None
    }

    function Extract(): T
      requires Some?
    {
      value
    }
  }

  type byte = x: int | 0 <= x < 256

  type Frame = seq<byte>

  /** What a C string holds: the bytes before its terminator. */
  type CString = s: seq<byte> | 0 !in s

  /** The C string seen in a buffer of raw bytes that is terminated behind its last byte. */
  function CStr(raw: seq<byte>): (s: CString)
    ensures |s| <= |raw|
    ensures s == raw[..|s|]
    ensures |s| < |raw| ==> raw[|s|] == 0
  {
    if raw == [] || raw[0] == 0 then [] else [raw[0]] + CStr(raw[1..])
  }

  lemma {:induction false} CStrOfCString(s: CString)
    ensures CStr(s) == s
  {
  }

  /** The buffer holds the string, and then its end or a terminator. */
  predicate Shows(raw: seq<byte>, s: CString) {
    raw == s || (|s| < |raw| && raw[..|s|] == s && raw[|s|] == 0)
  }

  /** A buffer shows one C string. */
  lemma {:induction false} CStrExactly(raw: seq<byte>, s: CString)
    ensures CStr(raw) == s <==> Shows(raw, s)
  {
    if raw != [] && s != [] && raw[0] == s[0] {
      CStrExactly(raw[1..], s[1..]);
      assert s == [s[0]] + s[1..];
      assert raw == [raw[0]] + raw[1..];
      if |s| <= |raw| {
        assert raw[..|s|] == [raw[0]] + raw[1..][..|s| - 1];
      }
    }
  }

  // ----- printf formatting of a value passed as the format string -----

  const PERCENT: byte := 37

  /** Does the format hold a '%' that is not part of a "%%" pair? It then asks for an
      argument that no caller passes. */
  predicate HasConversion(s: CString) {
    if s == [] then false
    else if s[0] != PERCENT then HasConversion(s[1..])
    else if |s| >= 2 && s[1] == PERCENT then HasConversion(s[2..])
    else true
  }

  /** The text printf makes of a format without conversions. */
  function Collapse(s: CString): CString {
    if s == [] then []
    else if s[0] == PERCENT && |s| >= 2 && s[1] == PERCENT then [PERCENT] + Collapse(s[2..])
    else [s[0]] + Collapse(s[1..])
  }

  /** `unspecified` stands for whatever printf makes of a conversion without an argument. */
  function Format(unspecified: CString -> CString, s: CString): CString {
    if HasConversion(s) then unspecified(s) else Collapse(s)
  }

  lemma {:induction false} PlainText(s: CString)
    requires PERCENT !in s
    ensures !HasConversion(s) && Collapse(s) == s
  {
    if s != [] {
      PlainText(s[1..]);
    }
  }

  lemma {:induction false} CollapseShrinks(s: CString)
    requires !HasConversion(s)
    ensures |Collapse(s)| <= |s|
    ensures PERCENT in s ==> |Collapse(s)| < |s|
  {
    if s == [] {
    } else if s[0] != PERCENT {
      CollapseShrinks(s[1..]);
    } else {
      CollapseShrinks(s[2..]);
    }
  }

  /** The format that asks for a text as it stands: every '%' is doubled. */
  function Escape(t: CString): CString {
    if t == [] then [] else (if t[0] == PERCENT then [PERCENT, PERCENT] else [t[0]]) + Escape(t[1..])
  }

  /** printf makes the text of its escaped form, whatever it does with stray conversions. */
  lemma {:induction false} EscapedText(u: CString -> CString, t: CString)
    ensures !HasConversion(Escape(t)) && Format(u, Escape(t)) == t
  {
    if t != [] {
      EscapedText(u, t[1..]);
      if t[0] == PERCENT {
        assert Escape(t)[2..] == Escape(t[1..]);
      } else {
        assert Escape(t)[1..] == Escape(t[1..]);
      }
    }
  }

  lemma {:induction false} Unescaped(s: CString)
    requires !HasConversion(s)
    ensures s == Escape(Collapse(s))
  {
    if s == [] {
    } else if s[0] != PERCENT {
      Unescaped(s[1..]);
    } else {
      Unescaped(s[2..]);
      assert s == [PERCENT, PERCENT] + s[2..];
    }
  }

  /** The formats without a stray conversion are exactly the escaped forms of texts. */
  lemma {:induction false} ConversionExactly(s: CString)
    ensures !HasConversion(s) <==> exists t: CString :: s == Escape(t)
  {
    if !HasConversion(s) {
      Unescaped(s);
    }
    if t: CString :| s == Escape(t) {
      EscapedText(x => x, t);
    }
  }

  /** Formatting keeps a value, whatever printf does with stray conversions, exactly when the
      value holds no '%'. */
  lemma FormatKeepsExactlyPlainText(s: CString)
    ensures (forall u: CString -> CString :: Format(u, s) == s) <==> PERCENT !in s
  {
    if PERCENT !in s {
      PlainText(s);
    } else {
      var u: CString -> CString := (x: CString) => s + [PERCENT];
      if !HasConversion(s) {
        CollapseShrinks(s);
      }
      assert Format(u, s) != s;
    }
  }

  // ----- Hexadecimal printing -----

  const HEX_DIGITS: string := "0123456789ABCDEF"

  function HexDigit(data: seq<byte>, i: nat): char
    requires i < 2 * |data|
  {
    HEX_DIGITS[if i % 2 == 0 then data[i / 2] / 16 else data[i / 2] % 16]
  }

  function StrHex(data: seq<byte>): (text: string)
    ensures |text| == 2 * |data|
  {
    seq(2 * |data|, i requires 0 <= i < 2 * |data| => HexDigit(data, i))
  }

  lemma HexDigitInjective(a: nat, b: nat)
    requires a < 16 && b < 16 && HEX_DIGITS[a] == HEX_DIGITS[b]
    ensures a == b
  {
  }

  lemma DigitsAt(data: seq<byte>, i: nat)
    requires i < |data|
    ensures StrHex(data)[2 * i] == HEX_DIGITS[data[i] / 16]
    ensures StrHex(data)[2 * i + 1] == HEX_DIGITS[data[i] % 16]
  {
    assert HexDigit(data, 2 * i) == HEX_DIGITS[data[i] / 16];
    assert HexDigit(data, 2 * i + 1) == HEX_DIGITS[data[i] % 16];
  }

  /** Two routing ids share a hash key only when they are the same routing id. */
  lemma StrHexInjective(a: seq<byte>, b: seq<byte>)
    requires StrHex(a) == StrHex(b)
    ensures a == b
  {
    hide StrHex, HexDigit;
    assert |StrHex(a)| == |StrHex(b)|;
    forall i | 0 <= i < |a|
      ensures a[i] == b[i]
    {
      DigitsAt(a, i);
      DigitsAt(b, i);
      HexDigitInjective(a[i] / 16, b[i] / 16);
      HexDigitInjective(a[i] % 16, b[i] % 16);
    }
  }
}
