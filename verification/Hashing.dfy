/** Canonical bytes of a list of strings (src/contracts/hashing.py): compact JSON, then UTF-8.

    Both layers are prefix codes: what one character or string encodes to never begins the encoding of
    another, so the whole encoding can be read back in only one way. */
module Hashing {
  import opened Base

  type Byte = b: int | 0 <= b < 256

  // ---------------------------------------------------------------- string escaping, section 7 of RFC 8259

  const QUOTE := "\""

  function HexDigit(d: nat): char
    requires d < 16
  {
    "0123456789abcdef"[d]
  }

  lemma HexDigitInjective(d: nat, e: nat)
    requires d < 16 && e < 16 && HexDigit(d) == HexDigit(e)
    ensures d == e
  {
  }

  predicate IsControl(c: char) {
    c as int < 0x20
  }

  /** The character after the backslash of a two-character escape. */
  function ShortEscape(c: char): (e: char)
    requires c in "\"\\\U{0008}\U{000C}\n\r\t"
  {
    if c == '\"' then '\"'
    else if c == '\\' then '\\'
    else if c == '\U{0008}' then 'b'
    else if c == '\U{000C}' then 'f'
    else if c == '\n' then 'n'
    else if c == '\r' then 'r'
    else 't'
  }

  /** One character inside a JSON string, with ensure_ascii off. */
  function Escape(c: char): (e: string)
    ensures e != [] && (e[0] == '\\' || e == [c]) && e[0] != '\"'
  {
    if c in "\"\\\U{0008}\U{000C}\n\r\t" then ['\\', ShortEscape(c)]
    else if IsControl(c) then ['\\', 'u', '0', '0', HexDigit(c as int / 16), HexDigit(c as int % 16)]
    else [c]
  }

  lemma EscapeIsPrefixCode(a: char, b: char, x: string, y: string)
    requires Escape(a) + x == Escape(b) + y
    ensures a == b && x == y
  {
    var s, t := Escape(a) + x, Escape(b) + y;
    assert s[0] == Escape(a)[0] && t[0] == Escape(b)[0];
    if s[0] == '\\' {
      assert s[1] == Escape(a)[1] && t[1] == Escape(b)[1];
      if s[1] == 'u' {
        ControlFromHex(a, b, s, t);
      }
    }
    assert a == b;
    assert s[|Escape(a)|..] == x && t[|Escape(b)|..] == y;
  }

  lemma ControlFromHex(a: char, b: char, s: string, t: string)
    requires s == t && Escape(a) <= s && Escape(b) <= t && |Escape(a)| > 1 && |Escape(b)| > 1
    requires Escape(a)[1] == 'u' && Escape(b)[1] == 'u'
    ensures a == b
  {
    assert Escape(a)[4] == s[4] && Escape(a)[5] == s[5] && Escape(b)[4] == t[4] && Escape(b)[5] == t[5];
    HexDigitInjective(a as int / 16, b as int / 16);
    HexDigitInjective(a as int % 16, b as int % 16);
    assert a as int == 16 * (a as int / 16) + a as int % 16;
    assert b as int == 16 * (b as int / 16) + b as int % 16;
  }

  /** What a code must satisfy to be read back: no codeword starts another one, nor the closing quote. */
  ghost predicate PrefixCode(code: char -> string) {
    && (forall c :: code(c) != [] && code(c)[0] != '\"')
    && (forall a, b, x: string, y: string {:trigger code(a) + x, code(b) + y} ::
          code(a) + x == code(b) + y ==> a == b && x == y)
  }

  lemma EscapeIsCode()
    ensures PrefixCode(Escape)
  {
    forall a, b, x: string, y: string | Escape(a) + x == Escape(b) + y
      ensures a == b && x == y
    {
      EscapeIsPrefixCode(a, b, x, y);
    }
  }

  /** The encoded characters of `s`, then the closing quote. */
  function Quoted(code: char -> string, s: string): string {
    if s == [] then QUOTE else code(s[0]) + Quoted(code, s[1..])
  }

  lemma {:induction false} QuotedIsPrefixCode(code: char -> string, s: string, t: string, x: string, y: string)
    requires PrefixCode(code) && Quoted(code, s) + x == Quoted(code, t) + y
    ensures s == t && x == y
    decreases |s|
  {
    var u, v := Quoted(code, s) + x, Quoted(code, t) + y;
    assert u[0] == if s == [] then '\"' else code(s[0])[0];
    assert v[0] == if t == [] then '\"' else code(t[0])[0];
    if s == [] && t == [] {
      assert u[1..] == x && v[1..] == y;
    } else if s != [] && t != [] {
      assert u == code(s[0]) + (Quoted(code, s[1..]) + x);
      assert v == code(t[0]) + (Quoted(code, t[1..]) + y);
      QuotedIsPrefixCode(code, s[1..], t[1..], x, y);
    }
  }

  lemma AfterQuote(u: string, v: string, x: string, y: string)
    requires QUOTE + u + x == QUOTE + v + y
    ensures u + x == v + y
  {
    assert (QUOTE + u + x)[1..] == u + x;
    assert (QUOTE + v + y)[1..] == v + y;
  }

  /** A JSON string. */
  function JsonString(s: string): string {
    QUOTE + Quoted(Escape, s)
  }

  lemma JsonStringIsPrefixCode(s: string, t: string, x: string, y: string)
    requires JsonString(s) + x == JsonString(t) + y
    ensures s == t && x == y
  {
    EscapeIsCode();
    AfterQuote(Quoted(Escape, s), Quoted(Escape, t), x, y);
    QuotedIsPrefixCode(Escape, s, t, x, y);
  }

  /** The items of an array, each after its opening bracket or comma, and the closing bracket. */
  function Items(encode: string -> string, items: seq<string>, before: char): string {
    if items == [] then "]" else [before] + encode(items[0]) + Items(encode, items[1..], ',')
  }

  /** `json.dumps(items, separators=(",", ":"), ensure_ascii=False)`. */
  function JsonList(items: seq<string>): string {
    if items == [] then "[]" else Items(JsonString, items, '[')
  }

  ghost predicate ReadsBack(encode: string -> string) {
    forall s, t, x: string, y: string {:trigger encode(s) + x, encode(t) + y} ::
      encode(s) + x == encode(t) + y ==> s == t && x == y
  }

  lemma {:induction false} ItemsInjective(encode: string -> string, a: seq<string>, b: seq<string>, before: char)
    requires ReadsBack(encode) && before != ']' && Items(encode, a, before) == Items(encode, b, before)
    ensures a == b
    decreases |a|
  {
    var u, v := Items(encode, a, before), Items(encode, b, before);
    if a != [] {
      assert u[0] == before;
      assert u[1..] == encode(a[0]) + Items(encode, a[1..], ',');
    }
    if b != [] {
      assert v[0] == before;
      assert v[1..] == encode(b[0]) + Items(encode, b[1..], ',');
    }
    if a != [] && b != [] {
      ItemsInjective(encode, a[1..], b[1..], ',');
    }
  }

  lemma JsonListInjective(a: seq<string>, b: seq<string>)
    requires JsonList(a) == JsonList(b)
    ensures a == b
  {
    forall s, t, x: string, y: string | JsonString(s) + x == JsonString(t) + y
      ensures s == t && x == y
    {
      JsonStringIsPrefixCode(s, t, x, y);
    }
    if a != [] {
      ListIsNotEmptyList(a);
    }
    if b != [] {
      ListIsNotEmptyList(b);
    }
    if a != [] && b != [] {
      ItemsInjective(JsonString, a, b, '[');
    }
  }

  lemma ListIsNotEmptyList(a: seq<string>)
    requires a != []
    ensures JsonList(a) != "[]"
  {
    assert JsonList(a)[1] == JsonString(a[0])[0] == '\"';
  }

  // ---------------------------------------------------------------- UTF-8

  /** UTF-8 of one character. */
  function Utf8(c: char): (bytes: seq<Byte>)
    ensures bytes != []
  {
    var n := c as int;
    if n < 0x80 then [n]
    else if n < 0x800 then [0xC0 + n / 64, 0x80 + n % 64]
    else if n < 0x1_0000 then [0xE0 + n / 4096, 0x80 + n / 64 % 64, 0x80 + n % 64]
    else [0xF0 + n / 262144, 0x80 + n / 4096 % 64, 0x80 + n / 64 % 64, 0x80 + n % 64]
  }

  /** The length and the code point, read back from the leading bytes. */
  function Utf8Length(first: int): nat {
    if first < 0x80 then 1 else if first < 0xE0 then 2 else if first < 0xF0 then 3 else 4
  }

  function CodePoint(bytes: seq<int>): int
    requires 1 <= |bytes| <= 4
  {
    if |bytes| == 1 then bytes[0]
    else if |bytes| == 2 then (bytes[0] - 0xC0) * 64 + (bytes[1] - 0x80)
    else if |bytes| == 3 then (bytes[0] - 0xE0) * 4096 + (bytes[1] - 0x80) * 64 + (bytes[2] - 0x80)
    else (bytes[0] - 0xF0) * 262144 + (bytes[1] - 0x80) * 4096 + (bytes[2] - 0x80) * 64 + (bytes[3] - 0x80)
  }

  /** Decoding undoes encoding. */
  lemma Utf8RoundTrip(c: char)
    ensures |Utf8(c)| == Utf8Length(Utf8(c)[0]) && CodePoint(Utf8(c)) == c as int
  {
    var n := c as int;
    assert n / 64 / 64 == n / 4096 && n / 4096 / 64 == n / 262144;
    assert n == n / 64 * 64 + n % 64;
    assert n / 64 == n / 4096 * 64 + n / 64 % 64;
    assert n / 4096 == n / 262144 * 64 + n / 4096 % 64;
  }

  lemma Utf8IsPrefixCode(a: char, b: char, x: seq<Byte>, y: seq<Byte>)
    requires Utf8(a) + x == Utf8(b) + y
    ensures a == b && x == y
  {
    var s, t := Utf8(a) + x, Utf8(b) + y;
    assert Utf8(a)[0] == s[0] && Utf8(b)[0] == t[0];
    Utf8RoundTrip(a);
    Utf8RoundTrip(b);
    assert s[..|Utf8(a)|] == Utf8(a) && t[..|Utf8(b)|] == Utf8(b);
    assert a == b;
    assert s[|Utf8(a)|..] == x && t[|Utf8(b)|..] == y;
  }

  function EncodeUtf8(s: string): seq<Byte> {
    if s == [] then [] else Utf8(s[0]) + EncodeUtf8(s[1..])
  }

  lemma {:induction false} EncodeUtf8Injective(s: string, t: string)
    requires EncodeUtf8(s) == EncodeUtf8(t)
    ensures s == t
    decreases |s|
  {
    if s != [] && t != [] {
      Utf8IsPrefixCode(s[0], t[0], EncodeUtf8(s[1..]), EncodeUtf8(t[1..]));
      EncodeUtf8Injective(s[1..], t[1..]);
    }
  }

  function CanonicalBytes(items: seq<string>): seq<Byte> {
    EncodeUtf8(JsonList(items))
  }

  /** Two lists of strings, of any lengths, never share their canonical bytes. */
  lemma CanonicalBytesInjective(a: seq<string>, b: seq<string>)
    requires CanonicalBytes(a) == CanonicalBytes(b)
    ensures a == b
  {
    EncodeUtf8Injective(JsonList(a), JsonList(b));
    JsonListInjective(a, b);
  }

  // ---------------------------------------------------------------- reading the bytes back

  /** The character that a two-character escape stands for. */
  function NamedEscape(e: char): Option<char> {
    if e == '\"' || e == '\\' || e == '/' then Some(e)
    else if e == 'b' then Some('\U{0008}')
    else if e == 'f' then Some('\U{000C}')
    else if e == 'n' then Some('\n')
    else if e == 'r' then Some('\r')
    else if e == 't' then Some('\t')
    else None
  }

  function HexValue(c: char): (v: Option<nat>)
    ensures v.Some? ==> v.value < 16
  {
    if '0' <= c <= '9' then Some(c as int - '0' as int)
    else if 'a' <= c <= 'f' then Some(c as int - 'a' as int + 10)
    else if 'A' <= c <= 'F' then Some(c as int - 'A' as int + 10)
    else None
  }

  /** The character with these four hexadecimal digits; surrogates stand for none by themselves. */
  function FromHex(a: char, b: char, c: char, d: char): Option<char> {
    match (HexValue(a), HexValue(b), HexValue(c), HexValue(d))
    case (Some(w), Some(x), Some(y), Some(z)) =>
      var n := ((w * 16 + x) * 16 + y) * 16 + z;
      if n < 0xD800 then Some(n as char) else if n >= 0xE000 then Some(n as char) else None
    case _ => None
  }

  /** A text that was read, and what follows it. */
  datatype Parsed = Parsed(text: string, rest: string)

  function Before(c: char, p: Option<Parsed>): Option<Parsed> {
    match p case None => None case Some(q) => Some(Parsed([c] + q.text, q.rest))
  }

  /** The rest of a JSON string up to its closing quote. */
  function ReadQuoted(s: string): (p: Option<Parsed>)
    ensures p.Some? ==> |p.value.rest| < |s|
  {
    if s == [] then None
    else if s[0] == '\"' then Some(Parsed("", s[1..]))
    else if s[0] != '\\' then Before(s[0], ReadQuoted(s[1..]))
    else if |s| >= 6 && s[1] == 'u' then
      (match FromHex(s[2], s[3], s[4], s[5]) case None => None case Some(c) => Before(c, ReadQuoted(s[6..])))
    else if |s| >= 2 then (match NamedEscape(s[1]) case None => None case Some(c) => Before(c, ReadQuoted(s[2..])))
    else None
  }

  function ReadString(s: string): (p: Option<Parsed>)
    ensures p.Some? ==> |p.value.rest| < |s|
  {
    if s != [] && s[0] == '\"' then ReadQuoted(s[1..]) else None
  }

  /** The strings of a JSON array after its opening bracket. */
  function ReadItems(s: string): Option<seq<string>>
    decreases |s|
  {
    match ReadString(s)
    case None => None
    case Some(p) =>
      if p.rest == "]" then Some([p.text])
      else if p.rest != [] && p.rest[0] == ',' then
        (match ReadItems(p.rest[1..]) case None => None case Some(items) => Some([p.text] + items))
      else None
  }

  function ReadList(s: string): Option<seq<string>> {
    if s == "[]" then Some([]) else if s != [] && s[0] == '[' then ReadItems(s[1..]) else None
  }

  lemma HexDigitReads(n: nat)
    requires n < 16
    ensures HexValue(HexDigit(n)) == Some(n)
  {
  }

  lemma EscapeReadsBack(c: char, rest: string)
    ensures ReadQuoted(Escape(c) + rest) == Before(c, ReadQuoted(rest))
  {
    var s := Escape(c) + rest;
    assert s[|Escape(c)|..] == rest;
    if |Escape(c)| == 6 {
      assert s[2] == '0' && s[3] == '0' && s[4] == HexDigit(c as int / 16) && s[5] == HexDigit(c as int % 16);
      HexDigitReads(c as int / 16);
      HexDigitReads(c as int % 16);
      assert c as int == 16 * (c as int / 16) + c as int % 16;
    } else if |Escape(c)| == 2 {
      assert s[1] == ShortEscape(c);
    }
  }

  lemma Regroup<T>(a: seq<T>, b: seq<T>, c: seq<T>)
    ensures a + b + c == a + (b + c)
  {
  }

  lemma Rejoin<T>(s: seq<T>)
    requires s != []
    ensures [s[0]] + s[1..] == s
  {
  }

  lemma {:induction false} QuotedReadsBack(s: string, rest: string)
    ensures ReadQuoted(Quoted(Escape, s) + rest) == Some(Parsed(s, rest))
  {
    if s == [] {
      NothingQuoted(rest);
    } else {
      QuotedReadsBack(s[1..], rest);
      FirstReadsBack(s[0], s[1..], Quoted(Escape, s[1..]) + rest, rest);
      Regroup(Escape(s[0]), Quoted(Escape, s[1..]), rest);
      Rejoin(s);
    }
  }

  lemma NothingQuoted(rest: string)
    ensures ReadQuoted(QUOTE + rest) == Some(Parsed("", rest))
  {
    assert (QUOTE + rest)[1..] == rest;
  }

  lemma FirstReadsBack(c: char, text: string, tail: string, rest: string)
    requires ReadQuoted(tail) == Some(Parsed(text, rest))
    ensures ReadQuoted(Escape(c) + tail) == Some(Parsed([c] + text, rest))
  {
    EscapeReadsBack(c, tail);
  }

  lemma StringReadsBack(s: string, rest: string)
    ensures ReadString(JsonString(s) + rest) == Some(Parsed(s, rest))
  {
    assert (JsonString(s) + rest)[1..] == Quoted(Escape, s) + rest;
    QuotedReadsBack(s, rest);
  }

  lemma ItemsHead(items: seq<string>, before: char)
    requires items != []
    ensures var s := Items(JsonString, items, before);
            && s != [] && s[0] == before
            && s[1..] == JsonString(items[0]) + Items(JsonString, items[1..], ',')
  {
    AfterFirst(before, JsonString(items[0]), Items(JsonString, items[1..], ','));
  }

  lemma AfterFirst(c: char, u: string, v: string)
    ensures ([c] + u + v)[1..] == u + v
  {
  }

  lemma {:induction false} ItemsReadBack(items: seq<string>, before: char)
    requires items != []
    ensures ReadItems(Items(JsonString, items, before)[1..]) == Some(items)
  {
    var rest, tail := items[1..], Items(JsonString, items[1..], ',');
    ItemsHead(items, before);
    StringReadsBack(items[0], tail);
    if rest == [] {
      LastItem(JsonString(items[0]) + tail, items[0]);
      assert items == [items[0]];
    } else {
      ItemsHead(rest, ',');
      ItemsReadBack(rest, ',');
      OneItemMore(JsonString(items[0]) + tail, items[0], tail, rest);
      Rejoin(items);
    }
  }

  lemma LastItem(s: string, text: string)
    requires ReadString(s) == Some(Parsed(text, "]"))
    ensures ReadItems(s) == Some([text])
  {
  }

  lemma OneItemMore(s: string, text: string, rest: string, items: seq<string>)
    requires ReadString(s) == Some(Parsed(text, rest)) && rest != [] && rest[0] == ','
    requires ReadItems(rest[1..]) == Some(items)
    ensures ReadItems(s) == Some([text] + items)
  {
  }

  function DecodeUtf8(bytes: seq<Byte>): Option<string>
    decreases |bytes|
  {
    if bytes == [] then Some("")
    else
      var n := Utf8Length(bytes[0]);
      if |bytes| < n then None
      else
        var point := CodePoint(bytes[..n]);
        if 0 <= point < 0xD800 || 0xE000 <= point < 0x11_0000 then
          (match DecodeUtf8(bytes[n..]) case None => None case Some(s) => Some([point as char] + s))
        else None
  }

  lemma {:induction false} DecodeEncode(s: string)
    ensures DecodeUtf8(EncodeUtf8(s)) == Some(s)
  {
    if s != [] {
      var bytes, rest := EncodeUtf8(s), EncodeUtf8(s[1..]);
      DecodeEncode(s[1..]);
      Utf8RoundTrip(s[0]);
      assert bytes[0] == Utf8(s[0])[0] && bytes[..|Utf8(s[0])|] == Utf8(s[0]) && bytes[|Utf8(s[0])|..] == rest;
      assert s == [s[0]] + s[1..];
    }
  }

  /** The canonical bytes are UTF-8 of a JSON array (sections 5 and 7 of RFC 8259) that reads back as the list. */
  lemma CanonicalBytesReadBack(items: seq<string>)
    ensures DecodeUtf8(CanonicalBytes(items)) == Some(JsonList(items))
    ensures ReadList(JsonList(items)) == Some(items)
  {
    DecodeEncode(JsonList(items));
    if items != [] {
      ItemsHead(items, '[');
      ItemsReadBack(items, '[');
      ListIsNotEmptyList(items);
    }
  }
}
