/**
 * The byte payload `copy_html_to_clipboard` places on the clipboard in the
 * "HTML Format" of Microsoft's HTML Clipboard Format, version 0.9: a header
 * of four zero-padded byte offsets, an HTML prefix, the fragment and a
 * suffix, all in UTF-8, then one NUL byte. The offsets are computed from a
 * header filled with zeros, which is right while every offset fits in eight
 * digits.
 */
module Clipboard {
  import opened Text
  import Numerals

  newtype byte = x: int | 0 <= x < 256

  // ---- UTF-8 ----

  /** The UTF-8 encoding of one character (a Unicode scalar value). */
  function Utf8Char(c: char): (r: seq<byte>)
    ensures 1 <= |r| <= 4
  {
    var n := c as int;
    if n < 0x80 then [n as byte]
    else if n < 0x800 then [(0xC0 + n / 64) as byte, (0x80 + n % 64) as byte]
    else if n < 0x10000 then
      [(0xE0 + n / 4096) as byte, (0x80 + n / 64 % 64) as byte, (0x80 + n % 64) as byte]
    else
      [(0xF0 + n / 262144) as byte, (0x80 + n / 4096 % 64) as byte, (0x80 + n / 64 % 64) as byte,
       (0x80 + n % 64) as byte]
  }

  /** `s.encode('utf-8')`. */
  function Utf8(s: string): (r: seq<byte>)
    ensures |r| >= |s|
  {
    if s == [] then [] else Utf8Char(s[0]) + Utf8(s[1..])
  }

  predicate Continuation(b: byte) {
    0x80 <= b < 0xC0
  }

  /** The character a valid code point number stands for. */
  function CodePoint(n: int): Option<char> {
    if 0 <= n < 0xD800 || 0xE000 <= n < 0x110000 then Some(n as char) else None
  }

  /** The character at the start of bs and the number of bytes it takes, when they form one. */
  function DecodeChar(bs: seq<byte>): (r: Option<(char, nat)>)
    ensures r.Some? ==> 1 <= r.value.1 <= |bs|
  {
    if bs == [] then None
    else
      var b0 := bs[0] as int;
      if b0 < 0x80 then Some((b0 as char, 1))
      else if b0 < 0xC0 then None
      else if b0 < 0xE0 then
        if |bs| < 2 || !Continuation(bs[1]) then None
        else
          var c := CodePoint((b0 - 0xC0) * 64 + (bs[1] as int - 0x80));
          if c.None? then None else Some((c.value, 2))
      else if b0 < 0xF0 then
        if |bs| < 3 || !Continuation(bs[1]) || !Continuation(bs[2]) then None
        else
          var c := CodePoint((b0 - 0xE0) * 4096 + (bs[1] as int - 0x80) * 64 + (bs[2] as int - 0x80));
          if c.None? then None else Some((c.value, 3))
      else if b0 < 0xF8 then
        if |bs| < 4 || !Continuation(bs[1]) || !Continuation(bs[2]) || !Continuation(bs[3]) then None
        else
          var c := CodePoint((b0 - 0xF0) * 262144 + (bs[1] as int - 0x80) * 4096 +
            (bs[2] as int - 0x80) * 64 + (bs[3] as int - 0x80));
          if c.None? then None else Some((c.value, 4))
      else None
  }

  /** A UTF-8 reader: the characters the bytes spell, or None when they do not spell any. */
  function Decode(bs: seq<byte>): Option<string>
    decreases |bs|
  {
    if bs == [] then Some([])
    else
      match DecodeChar(bs)
      case None => None
      case Some((c, k)) =>
        match Decode(bs[k..])
        case None => None
        case Some(rest) => Some([c] + rest)
  }

  lemma Split64(n: int)
    requires n >= 0
    ensures n == n / 64 * 64 + n % 64
    ensures n / 64 == n / 4096 * 64 + n / 64 % 64
    ensures n / 4096 == n / 262144 * 64 + n / 4096 % 64
  {
    assert n / 4096 == n / 64 / 64;
    assert n / 262144 == n / 4096 / 64;
  }

  /** Each character's bytes read back as that character, whatever follows them. */
  lemma DecodeCharOf(c: char, rest: seq<byte>)
    ensures DecodeChar(Utf8Char(c) + rest) == Some((c, |Utf8Char(c)|))
  {
    var n := c as int;
    var bs := Utf8Char(c) + rest;
    Split64(n);
    if n >= 0x80 {
      assert bs[1] == Utf8Char(c)[1];
    }
    if n >= 0x800 {
      assert bs[2] == Utf8Char(c)[2];
    }
    if n >= 0x10000 {
      assert bs[3] == Utf8Char(c)[3];
    }
    assert CodePoint(n) == Some(c);
  }

  /** Reading back what was encoded gives the original text. */
  lemma {:induction false} Utf8RoundTrip(s: string)
    ensures Decode(Utf8(s)) == Some(s)
  {
    if s != [] {
      var bs := Utf8(s);
      var e := Utf8Char(s[0]);
      DecodeCharOf(s[0], Utf8(s[1..]));
      assert bs[|e|..] == Utf8(s[1..]);
      Utf8RoundTrip(s[1..]);
      assert [s[0]] + s[1..] == s;
    }
  }

  /** Encoding distributes over concatenation. */
  lemma {:induction false} Utf8Append(a: string, b: string)
    ensures Utf8(a + b) == Utf8(a) + Utf8(b)
  {
    if a != [] {
      assert (a + b)[1..] == a[1..] + b;
      Utf8Append(a[1..], b);
    } else {
      assert a + b == b;
    }
  }

  predicate Ascii(s: string) {
    forall i | 0 <= i < |s| :: s[i] as int < 0x80
  }

  lemma AsciiAppend(a: string, b: string)
    requires Ascii(a) && Ascii(b)
    ensures Ascii(a + b)
  {
    forall i | 0 <= i < |a + b| ensures (a + b)[i] as int < 0x80 {
      if i >= |a| {
        assert (a + b)[i] == b[i - |a|];
      }
    }
  }

  /** ASCII text encodes to one byte per character, each the character's code. */
  lemma {:induction false} Utf8Ascii(s: string)
    requires Ascii(s)
    ensures |Utf8(s)| == |s|
    ensures forall i :: 0 <= i < |s| ==> Utf8(s)[i] as int == s[i] as int
  {
    if s != [] {
      assert Ascii(s[1..]) by {
        forall i | 0 <= i < |s| - 1 ensures s[1..][i] as int < 0x80 {
          assert s[1..][i] == s[i + 1];
        }
      }
      Utf8Ascii(s[1..]);
      assert |Utf8Char(s[0])| == 1;
      forall i | 1 <= i < |s| ensures Utf8(s)[i] as int == s[i] as int {
        assert Utf8(s)[i] == Utf8(s[1..])[i - 1];
      }
    }
  }

  // ---- The CF_HTML payload ----

  const Prefix := "<!DOCTYPE html>\r\n" + "<html>\r\n" + "<body>\r\n" + "<!--StartFragment-->"
  const Suffix := "<!--EndFragment-->\r\n" + "</body>\r\n" + "</html>"

  /** One line of the header template: `name:{:08d}` and a line break. */
  function Field(name: string, n: nat): string {
    name + ":" + Numerals.ZeroPad(n, 8) + "\r\n"
  }

  /** The header template filled in with the four offsets. */
  function Header(startHtml: nat, endHtml: nat, startFragment: nat, endFragment: nat): string {
    "Version:0.9\r\n" + Field("StartHTML", startHtml) + Field("EndHTML", endHtml) +
    Field("StartFragment", startFragment) + Field("EndFragment", endFragment)
  }

  datatype Offsets = Offsets(startHtml: nat, endHtml: nat, startFragment: nat, endFragment: nat)

  /** The offsets: the dummy header's length, then the encoded prefix, fragment and suffix lengths added up. */
  function OffsetsOf(content: string): Offsets {
    var startHtml := |Utf8(Header(0, 0, 0, 0))|;
    var startFragment := startHtml + |Utf8(Prefix)|;
    var endFragment := startFragment + |Utf8(content)|;
    var endHtml := endFragment + |Utf8(Suffix)|;
    Offsets(startHtml, endHtml, startFragment, endFragment)
  }

  function FinalHeader(o: Offsets): string {
    Header(o.startHtml, o.endHtml, o.startFragment, o.endFragment)
  }

  /** The HTML part: prefix, fragment and suffix in UTF-8. */
  function Html(content: string): seq<byte> {
    Utf8(Prefix) + Utf8(content) + Utf8(Suffix)
  }

  /** `final_payload`: the header, the HTML part and a NUL byte. */
  function Payload(content: string): seq<byte> {
    Utf8(FinalHeader(OffsetsOf(content))) + Html(content) + [0]
  }

  // ---- Properties ----

  lemma Within<T>(x: seq<T>, y: seq<T>, i: nat, j: nat)
    requires i <= j <= |x|
    ensures (x + y)[i..j] == x[i..j]
  {
  }

  lemma Across<T>(x: seq<T>, y: seq<T>, i: nat, j: nat)
    requires i <= j <= |y|
    ensures (x + y)[|x| + i..|x| + j] == y[i..j]
  {
  }

  lemma DigitsAscii(s: string)
    requires Numerals.Digits(s)
    ensures Ascii(s)
  {
  }

  const Eight := 100000000

  /** A header line is ASCII, its name, a colon, the numeral and a line break; the numeral is eight digits below 10^8. */
  lemma FieldShape(name: string, n: nat)
    requires Ascii(name)
    ensures var f := Field(name, n); var z := Numerals.ZeroPad(n, 8);
      Ascii(f) && |f| == |name| + 3 + |z| && f[|name| + 1..|name| + 1 + |z|] == z
    ensures n < Eight ==> |Numerals.ZeroPad(n, 8)| == 8
  {
    var z := Numerals.ZeroPad(n, 8);
    DigitsAscii(z);
    assert Ascii(":") && Ascii("\r\n");
    AsciiAppend(name, ":");
    AsciiAppend(name + ":", z);
    AsciiAppend(name + ":" + z, "\r\n");
    assert Numerals.Pow10(8) == Eight;
    Numerals.ZeroPadSpec(n, 8);
    var f := Field(name, n);
    assert f == (name + ":") + z + "\r\n";
    assert f[|name| + 1..|name| + 1 + |z|] == z;
  }

  /** The header is ASCII, and 65 characters plus its four numerals long. */
  lemma HeaderShape(a: nat, b: nat, c: nat, d: nat)
    ensures Ascii(Header(a, b, c, d))
    ensures |Header(a, b, c, d)| == 65 + |Numerals.ZeroPad(a, 8)| + |Numerals.ZeroPad(b, 8)| +
      |Numerals.ZeroPad(c, 8)| + |Numerals.ZeroPad(d, 8)|
  {
    assert Ascii("Version:0.9\r\n") && Ascii("StartHTML") && Ascii("EndHTML");
    assert Ascii("StartFragment") && Ascii("EndFragment");
    FieldShape("StartHTML", a);
    FieldShape("EndHTML", b);
    FieldShape("StartFragment", c);
    FieldShape("EndFragment", d);
    var f1, f2, f3, f4 := Field("StartHTML", a), Field("EndHTML", b), Field("StartFragment", c), Field("EndFragment", d);
    AsciiAppend("Version:0.9\r\n", f1);
    AsciiAppend("Version:0.9\r\n" + f1, f2);
    AsciiAppend("Version:0.9\r\n" + f1 + f2, f3);
    AsciiAppend("Version:0.9\r\n" + f1 + f2 + f3, f4);
  }

  /** A header whose offsets are all below 10^8 is 97 bytes, like the dummy one. */
  lemma HeaderLength(a: nat, b: nat, c: nat, d: nat)
    requires a < Eight && b < Eight && c < Eight && d < Eight
    ensures |Utf8(Header(a, b, c, d))| == 97
  {
    HeaderShape(a, b, c, d);
    Utf8Ascii(Header(a, b, c, d));
    assert Numerals.Pow10(8) == Eight;
    Numerals.ZeroPadSpec(a, 8);
    Numerals.ZeroPadSpec(b, 8);
    Numerals.ZeroPadSpec(c, 8);
    Numerals.ZeroPadSpec(d, 8);
  }

  lemma PrefixLength()
    ensures |Utf8(Prefix)| == 53
  {
    assert Ascii("<!DOCTYPE html>\r\n") && Ascii("<html>\r\n") && Ascii("<body>\r\n");
    assert Ascii("<!--StartFragment-->");
    AsciiAppend("<!DOCTYPE html>\r\n", "<html>\r\n");
    AsciiAppend("<!DOCTYPE html>\r\n" + "<html>\r\n", "<body>\r\n");
    AsciiAppend("<!DOCTYPE html>\r\n" + "<html>\r\n" + "<body>\r\n", "<!--StartFragment-->");
    Utf8Ascii(Prefix);
  }

  lemma SuffixLength()
    ensures |Utf8(Suffix)| == 36
  {
    assert Ascii("<!--EndFragment-->\r\n") && Ascii("</body>\r\n") && Ascii("</html>");
    AsciiAppend("<!--EndFragment-->\r\n", "</body>\r\n");
    AsciiAppend("<!--EndFragment-->\r\n" + "</body>\r\n", "</html>");
    Utf8Ascii(Suffix);
  }

  /**
   * The offsets: the HTML starts after the 97-byte dummy header, the fragment
   * after the 53-byte prefix, and the fragment's end and the HTML's end lie
   * its encoded length and the 36-byte suffix further on.
   */
  lemma OffsetsValues(content: string)
    ensures var o := OffsetsOf(content);
      o.startHtml == 97 && o.startFragment == 150 &&
      o.endFragment - o.startFragment == |Utf8(content)| && o.endHtml == o.endFragment + 36
  {
    HeaderLength(0, 0, 0, 0);
    PrefixLength();
    SuffixLength();
  }

  /**
   * The final header is exactly as long as the dummy one when the offsets
   * fit in eight digits, and longer otherwise, which shifts everything past
   * it away from the recorded offsets.
   */
  lemma FinalHeaderLength(content: string)
    ensures var o := OffsetsOf(content);
      o.endHtml < Eight ==> |Utf8(FinalHeader(o))| == o.startHtml
    ensures var o := OffsetsOf(content);
      o.endHtml >= Eight ==> |Utf8(FinalHeader(o))| > o.startHtml
  {
    var o := OffsetsOf(content);
    OffsetsValues(content);
    if o.endHtml < Eight {
      HeaderLength(o.startHtml, o.endHtml, o.startFragment, o.endFragment);
    } else {
      var h := FinalHeader(o);
      HeaderShape(o.startHtml, o.endHtml, o.startFragment, o.endFragment);
      Utf8Ascii(h);
      assert Numerals.Pow10(8) == Eight;
      Numerals.ZeroPadSpec(o.startHtml, 8);
      Numerals.ZeroPadSpec(o.endHtml, 8);
      Numerals.ZeroPadSpec(o.startFragment, 8);
      Numerals.ZeroPadSpec(o.endFragment, 8);
    }
  }

  /**
   * While the offsets fit in eight digits they point where they should: the
   * HTML spans prefix, fragment and suffix, the fragment is the encoded
   * content and reads back as it, and one NUL byte ends the payload.
   */
  lemma PayloadLayout(content: string)
    requires OffsetsOf(content).endHtml < Eight
    ensures var o := OffsetsOf(content); var p := Payload(content);
      |p| == o.endHtml + 1 && p[|p| - 1] == 0 &&
      p[o.startHtml..o.endHtml] == Utf8(Prefix) + Utf8(content) + Utf8(Suffix) &&
      p[o.startFragment..o.endFragment] == Utf8(content) &&
      Decode(p[o.startFragment..o.endFragment]) == Some(content)
  {
    var o := OffsetsOf(content);
    FinalHeaderLength(content);
    OffsetsValues(content);
    PrefixLength();
    SuffixLength();
    var h, html, mid := Utf8(FinalHeader(o)), Html(content), Utf8(content);
    Within(h + html, [0], 97, 97 + |html|);
    Across(h, html, 0, |html|);
    assert html[53..53 + |mid|] == mid;
    Within(h + html, [0], 150, 150 + |mid|);
    Across(h, html, 53, 53 + |mid|);
    Utf8RoundTrip(content);
  }

  /** The first two numbers in the header are StartHTML and EndHTML. */
  lemma HtmlFields(a: nat, b: nat, c: nat, d: nat)
    requires a < Eight && b < Eight
    ensures var h := Header(a, b, c, d);
      h[23..31] == Numerals.ZeroPad(a, 8) && h[41..49] == Numerals.ZeroPad(b, 8)
  {
    assert Ascii("StartHTML") && Ascii("EndHTML");
    FieldShape("StartHTML", a);
    FieldShape("EndHTML", b);
    var v, f1, f2, f3, f4 := "Version:0.9\r\n", Field("StartHTML", a), Field("EndHTML", b), Field("StartFragment", c), Field("EndFragment", d);
    var x1 := v + f1;
    var x2 := x1 + f2;
    var x3 := x2 + f3;
    assert |v| == 13 && |x1| == 33 && |x2| == 51;
    Across(v, f1, 10, 18);
    Within(x1, f2, 23, 31);
    Within(x2, f3, 23, 31);
    Within(x3, f4, 23, 31);
    Across(x1, f2, 8, 16);
    Within(x2, f3, 41, 49);
    Within(x3, f4, 41, 49);
  }

  /** The last two numbers in the header are StartFragment and EndFragment. */
  lemma FragmentFields(a: nat, b: nat, c: nat, d: nat)
    requires a < Eight && b < Eight && c < Eight && d < Eight
    ensures var h := Header(a, b, c, d);
      h[65..73] == Numerals.ZeroPad(c, 8) && h[87..95] == Numerals.ZeroPad(d, 8)
  {
    assert Ascii("StartHTML") && Ascii("EndHTML") && Ascii("StartFragment") && Ascii("EndFragment");
    FieldShape("StartHTML", a);
    FieldShape("EndHTML", b);
    FieldShape("StartFragment", c);
    FieldShape("EndFragment", d);
    var v, f1, f2, f3, f4 := "Version:0.9\r\n", Field("StartHTML", a), Field("EndHTML", b), Field("StartFragment", c), Field("EndFragment", d);
    var x2 := v + f1 + f2;
    var x3 := x2 + f3;
    assert |x2| == 51 && |x3| == 75;
    Across(x2, f3, 14, 22);
    Within(x3, f4, 65, 73);
    Across(x3, f4, 12, 20);
  }

  /** Each numeral in the header reads back as the offset written there. */
  lemma HeaderValues(a: nat, b: nat, c: nat, d: nat)
    requires a < Eight && b < Eight && c < Eight && d < Eight
    ensures var h := Header(a, b, c, d);
      Numerals.Digits(h[23..31]) && Numerals.Value(h[23..31]) == a &&
      Numerals.Digits(h[41..49]) && Numerals.Value(h[41..49]) == b &&
      Numerals.Digits(h[65..73]) && Numerals.Value(h[65..73]) == c &&
      Numerals.Digits(h[87..95]) && Numerals.Value(h[87..95]) == d
  {
    HtmlFields(a, b, c, d);
    FragmentFields(a, b, c, d);
    Numerals.ZeroPadSpec(a, 8);
    Numerals.ZeroPadSpec(b, 8);
    Numerals.ZeroPadSpec(c, 8);
    Numerals.ZeroPadSpec(d, 8);
  }

  /** An ASCII fragment, such as `<p>hi</p>`, adds one byte per character to the offsets after it. */
  lemma AsciiFragment(content: string)
    requires Ascii(content)
    ensures OffsetsOf(content).endFragment == 150 + |content|
    ensures OffsetsOf(content).endHtml == 186 + |content|
  {
    OffsetsValues(content);
    Utf8Ascii(content);
  }
}
