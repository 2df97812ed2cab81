/** The part of `JSON.stringify` the `x-manifest-deps` header needs: strings
    and arrays of `[query, digest]` string pairs, as section 25.5.2 of
    ECMA-262 writes them (no whitespace; `QuoteJSONString` escapes). */
module Json {
  import opened Wrappers

  /** A lower-case hexadecimal digit, as `UnicodeEscape` writes it. */
  function HexDigit(d: int): (c: char)
    requires 0 <= d < 16
    ensures c in "0123456789abcdef"
  {
    if d < 10 then ('0' as int + d) as char else ('a' as int + d - 10) as char
  }

  /** The value of a hexadecimal digit of either case. */
  function HexValue(c: char): (v: Option<int>)
    ensures v.Some? ==> 0 <= v.value < 16
  {
    if '0' <= c <= '9' then Some(c as int - '0' as int)
    else if 'a' <= c <= 'f' then Some(c as int - 'a' as int + 10)
    else if 'A' <= c <= 'F' then Some(c as int - 'A' as int + 10)
    else None
  }

  lemma HexDigitValue(d: int)
    requires 0 <= d < 16
    ensures HexValue(HexDigit(d)) == Some(d)
  {
  }

  /** `"`, `\` and the control characters are the ones `QuoteJSONString`
      escapes. */
  predicate Plain(c: char) {
    c >= ' ' && c != '"' && c != '\\'
  }

  /** One character inside a JSON string: the short escapes for `"`, `\`,
      backspace, tab, line feed, form feed and carriage return, `\u00xx`
      for any other control character, and the character itself otherwise. */
  function JsonChar(c: char): (r: string)
    ensures Plain(c) <==> r == [c]
    ensures forall k :: 0 <= k < |r| ==> r[k] >= ' '
  {
    if c == '"' then "\\\""
    else if c == '\\' then "\\\\"
    else if c as int == 8 then "\\b"
    else if c == '\t' then "\\t"
    else if c == '\n' then "\\n"
    else if c as int == 12 then "\\f"
    else if c == '\r' then "\\r"
    else if c < ' ' then "\\u00" + [HexDigit(c as int / 16), HexDigit(c as int % 16)]
    else [c]
  }

  /** The characters of a JSON string, each written by `JsonChar`. */
  function JsonChars(s: string): (r: string)
    ensures forall k :: 0 <= k < |r| ==> r[k] >= ' '
    decreases |s|
  {
    if |s| == 0 then "" else JsonChar(s[0]) + JsonChars(s[1..])
  }

  /** `JSON.stringify(s)` of a string. */
  function JsonString(s: string): (r: string)
    ensures |r| >= 2 && r[0] == '"' && r[|r| - 1] == '"'
  {
    "\"" + JsonChars(s) + "\""
  }

  /** `JSON.stringify([a, b])`. */
  function JsonPair(a: string, b: string): (r: string)
    ensures |r| >= 2 && r[0] == '[' && r[|r| - 1] == ']'
  {
    "[" + JsonString(a) + "," + JsonString(b) + "]"
  }

  /** The elements of `JSON.stringify(pairs)`, separated by commas. */
  function JsonPairList(pairs: seq<(string, string)>): string
    decreases |pairs|
  {
    if |pairs| == 0 then ""
    else if |pairs| == 1 then JsonPair(pairs[0].0, pairs[0].1)
    else JsonPair(pairs[0].0, pairs[0].1) + "," + JsonPairList(pairs[1..])
  }

  /** `JSON.stringify(pairs)` of an array of string pairs. */
  function JsonPairs(pairs: seq<(string, string)>): (r: string)
    ensures |r| >= 2 && r[0] == '[' && r[|r| - 1] == ']'
    ensures |pairs| == 0 <==> r == "[]"
  {
    "[" + JsonPairList(pairs) + "]"
  }

  /** Reading a JSON string body back (section 25.5.1 of ECMA-262, the
      string literal of `JSON.parse`), up to and past its closing quote: the
      characters read and what follows the quote. A control character, an
      unknown escape, a `\u` escape naming a surrogate or a missing closing
      quote is an error. */
  function ReadChars(r: string): (s: Option<(string, string)>)
    ensures s.Some? ==> |s.value.1| < |r|
    decreases |r|
  {
    if |r| == 0 then None
    else if r[0] == '"' then Some(("", r[1..]))
    else if r[0] != '\\' then
      if r[0] < ' ' then None
      else match ReadChars(r[1..])
        case Some((rest, after)) => Some(([r[0]] + rest, after))
        case None => None
    else if |r| < 2 then None
    else
      var c: Option<(char, nat)> :=
        if r[1] == 'u' then (if |r| >= 6 then UnicodeEscape(r[2], r[3], r[4], r[5]) else None)
        else match ShortEscape(r[1]) case Some(ch) => Some((ch, 2)) case None => None;
      match c
      case None => None
      case Some((ch, n)) =>
        match ReadChars(r[n..])
        case Some((rest, after)) => Some(([ch] + rest, after))
        case None => None
  }

  /** The character a two-character escape `\x` stands for. */
  function ShortEscape(x: char): (r: Option<char>)
    ensures r.Some? ==> x != 'u'
  {
    if x == '"' then Some('"')
    else if x == '\\' then Some('\\')
    else if x == '/' then Some('/')
    else if x == 'b' then Some(8 as char)
    else if x == 't' then Some('\t')
    else if x == 'n' then Some('\n')
    else if x == 'f' then Some(12 as char)
    else if x == 'r' then Some('\r')
    else None
  }

  /** The character four hexadecimal digits name, and the escape's length. */
  function UnicodeEscape(a: char, b: char, c: char, d: char): (r: Option<(char, nat)>)
    ensures r.Some? ==> r.value.1 == 6
  {
    match (HexValue(a), HexValue(b), HexValue(c), HexValue(d))
    case (Some(x), Some(y), Some(z), Some(w)) =>
      var v := 4096 * x + 256 * y + 16 * z + w;
      if 0xD800 <= v < 0xE000 then None else Some((v as char, 6))
    case _ => None
  }

  /** Reading one written character back gives the character, and reading
      goes on right after it. */
  lemma ReadCharStep(c: char, t: string)
    ensures ReadChars(JsonChar(c) + t) == Prepend(c, ReadChars(t))
  {
    var r := JsonChar(c) + t;
    if Plain(c) {
      assert r[0] == c && r[1..] == t;
    } else if c < ' ' && c as int !in {8, 9, 10, 12, 13} {
      UnicodeEscapeStep(c, t);
    } else {
      ShortEscapeStep(c, t);
    }
  }

  /** `c` in front of the characters read, if reading succeeded. */
  function Prepend(c: char, read: Option<(string, string)>): Option<(string, string)> {
    match read
    case Some((rest, after)) => Some(([c] + rest, after))
    case None => None
  }

  lemma ShortEscapeStep(c: char, t: string)
    requires !Plain(c) && (c >= ' ' || c as int in {8, 9, 10, 12, 13})
    ensures ReadChars(JsonChar(c) + t) == Prepend(c, ReadChars(t))
  {
    var e := JsonChar(c);
    var r := e + t;
    assert |e| == 2 && e[0] == '\\' && ShortEscape(e[1]) == Some(c);
    assert r[0] == '\\' && r[1] == e[1];
    assert r[2..] == t;
  }

  lemma UnicodeEscapeStep(c: char, t: string)
    requires c < ' ' && c as int !in {8, 9, 10, 12, 13}
    ensures ReadChars(JsonChar(c) + t) == Prepend(c, ReadChars(t))
  {
    var hi, lo := HexDigit(c as int / 16), HexDigit(c as int % 16);
    var r := JsonChar(c) + t;
    assert JsonChar(c) == "\\u00" + [hi, lo];
    assert r[0] == '\\' && r[1] == 'u' && r[2] == '0' && r[3] == '0' && r[4] == hi && r[5] == lo;
    ControlEscapeValue(c);
    assert r[6..] == t;
  }

  /** `\u00xx` with the two digits `JsonChar` writes names the character. */
  lemma ControlEscapeValue(c: char)
    requires c < ' '
    ensures UnicodeEscape('0', '0', HexDigit(c as int / 16), HexDigit(c as int % 16)) == Some((c, 6))
  {
    HexDigitValue(c as int / 16);
    HexDigitValue(c as int % 16);
  }

  /** Round trip: a string's JSON characters and closing quote read back as
      the string, and reading stops right after the quote. */
  lemma {:induction false} ReadJsonChars(s: string, t: string)
    ensures ReadChars(JsonChars(s) + "\"" + t) == Some((s, t))
    decreases |s|
  {
    if |s| == 0 {
      assert JsonChars(s) + "\"" + t == ['"'] + t;
      DropFirst('"', t);
    } else {
      var tail := JsonChars(s[1..]) + "\"" + t;
      ReadJsonChars(s[1..], t);
      assert JsonChars(s) == JsonChar(s[0]) + JsonChars(s[1..]);
      Regroup(JsonChar(s[0]), JsonChars(s[1..]), "\"");
      Regroup(JsonChar(s[0]), JsonChars(s[1..]) + "\"", t);
      ReadCharCons(s[0], tail, s[1..], t);
      assert [s[0]] + s[1..] == s;
    }
  }

  lemma Regroup(a: string, b: string, c: string)
    ensures (a + b) + c == a + (b + c)
  {
  }

  lemma ReadCharCons(c: char, tail: string, rest: string, after: string)
    requires ReadChars(tail) == Some((rest, after))
    ensures ReadChars(JsonChar(c) + tail) == Some(([c] + rest, after))
  {
    ReadCharStep(c, tail);
  }

  /** A string made only of characters that need no escape is written
      between quotes as it is. */
  lemma {:induction false} PlainJsonString(s: string)
    requires forall k :: 0 <= k < |s| ==> Plain(s[k])
    ensures JsonString(s) == "\"" + s + "\""
    decreases |s|
  {
    PlainJsonChars(s);
  }

  lemma {:induction false} PlainJsonChars(s: string)
    requires forall k :: 0 <= k < |s| ==> Plain(s[k])
    ensures JsonChars(s) == s
    decreases |s|
  {
    if |s| > 0 {
      PlainJsonChars(s[1..]);
      assert JsonChar(s[0]) == [s[0]];
      assert [s[0]] + s[1..] == s;
    }
  }

  // ---------------------------------------------------------------------
  // Strings and arrays of pairs, read back

  /** A JSON string at the front of `r`, and what follows it. */
  function ReadString(r: string): (s: Option<(string, string)>)
    ensures s.Some? ==> |s.value.1| < |r|
  {
    if |r| > 0 && r[0] == '"' then ReadChars(r[1..]) else None
  }

  lemma ReadJsonString(s: string, t: string)
    ensures ReadString(JsonString(s) + t) == Some((s, t))
  {
    var r := JsonString(s) + t;
    assert r[1..] == JsonChars(s) + "\"" + t;
    ReadJsonChars(s, t);
  }

  /** A `[string,string]` array at the front of `r`, and what follows it. */
  function ReadPair(r: string): (p: Option<((string, string), string)>)
    ensures p.Some? ==> |p.value.1| < |r|
  {
    if |r| == 0 || r[0] != '[' then None
    else match ReadString(r[1..])
      case None => None
      case Some((a, r1)) =>
        if |r1| == 0 || r1[0] != ',' then None
        else match ReadString(r1[1..])
          case None => None
          case Some((b, r2)) =>
            if |r2| == 0 || r2[0] != ']' then None else Some(((a, b), r2[1..]))
  }

  lemma ReadJsonPair(a: string, b: string, t: string)
    ensures ReadPair(JsonPair(a, b) + t) == Some(((a, b), t))
  {
    var sa, sb := JsonString(a), JsonString(b);
    var r2 := "]" + t;
    var r1 := "," + (sb + r2);
    var r := "[" + (sa + r1);
    RegroupSix("[", sa, ",", sb, "]", t);
    assert JsonPair(a, b) + t == r;
    DropFirst('[', sa + r1);
    ReadJsonString(a, r1);
    DropFirst(',', sb + r2);
    ReadJsonString(b, r2);
    DropFirst(']', t);
    ReadPairStep(r, a, r1, b, r2);
  }

  lemma RegroupSix(p: string, q: string, u: string, v: string, w: string, x: string)
    ensures p + q + u + v + w + x == p + (q + (u + (v + (w + x))))
  {
    Regroup(p, q, u);
    Regroup(p + q + u, v, w);
    Regroup(p, q + u, v);
  }

  lemma ReadPairStep(r: string, a: string, r1: string, b: string, r2: string)
    requires |r| > 0 && r[0] == '[' && ReadString(r[1..]) == Some((a, r1))
    requires |r1| > 0 && r1[0] == ',' && ReadString(r1[1..]) == Some((b, r2))
    requires |r2| > 0 && r2[0] == ']'
    ensures ReadPair(r) == Some(((a, b), r2[1..]))
  {
  }

  /** One or more pairs separated by commas at the front of `r`, and what
      follows the last one. */
  function ReadPairList(r: string): (p: Option<(seq<(string, string)>, string)>)
    ensures p.Some? ==> |p.value.0| > 0
    decreases |r|
  {
    match ReadPair(r)
    case None => None
    case Some((pair, rest)) =>
      if |rest| > 0 && rest[0] == ',' then
        match ReadPairList(rest[1..])
        case None => None
        case Some((more, after)) => Some(([pair] + more, after))
      else Some(([pair], rest))
  }

  lemma {:induction false} ReadJsonPairList(pairs: seq<(string, string)>, t: string)
    requires |pairs| > 0
    requires |t| == 0 || t[0] != ','
    ensures ReadPairList(JsonPairList(pairs) + t) == Some((pairs, t))
    decreases |pairs|
  {
    if |pairs| == 1 {
      ReadJsonSinglePair(pairs, t);
    } else {
      ReadJsonPairList(pairs[1..], t);
      ReadJsonPairCons(pairs, t);
    }
  }

  /** The inductive step: the first pair, a comma, and the rest read back. */
  lemma ReadJsonPairCons(pairs: seq<(string, string)>, t: string)
    requires |pairs| > 1
    requires ReadPairList(JsonPairList(pairs[1..]) + t) == Some((pairs[1..], t))
    ensures ReadPairList(JsonPairList(pairs) + t) == Some((pairs, t))
  {
    var first := JsonPair(pairs[0].0, pairs[0].1);
    var tail := JsonPairList(pairs[1..]) + t;
    var rest := [','] + tail;
    assert JsonPairList(pairs) == first + "," + JsonPairList(pairs[1..]);
    Regroup(first, ",", JsonPairList(pairs[1..]));
    Regroup(first, "," + JsonPairList(pairs[1..]), t);
    Regroup(",", JsonPairList(pairs[1..]), t);
    ReadJsonPair(pairs[0].0, pairs[0].1, rest);
    DropFirst(',', tail);
    ReadPairListMore(JsonPairList(pairs) + t, pairs[0], rest, pairs[1..], t);
    assert [pairs[0]] + pairs[1..] == pairs;
  }

  lemma ReadJsonSinglePair(pairs: seq<(string, string)>, t: string)
    requires |pairs| == 1
    requires |t| == 0 || t[0] != ','
    ensures ReadPairList(JsonPairList(pairs) + t) == Some((pairs, t))
  {
    ReadJsonPair(pairs[0].0, pairs[0].1, t);
    ReadPairListLast(JsonPairList(pairs) + t, pairs[0], t);
    assert [pairs[0]] == pairs;
  }

  lemma DropFirst(c: char, s: string)
    ensures ([c] + s)[1..] == s
  {
  }

  lemma ReadPairListLast(r: string, pair: (string, string), rest: string)
    requires ReadPair(r) == Some((pair, rest))
    requires |rest| == 0 || rest[0] != ','
    ensures ReadPairList(r) == Some(([pair], rest))
  {
  }

  lemma ReadPairListMore(r: string, pair: (string, string), rest: string, more: seq<(string, string)>, after: string)
    requires ReadPair(r) == Some((pair, rest))
    requires |rest| > 0 && rest[0] == ','
    requires ReadPairList(rest[1..]) == Some((more, after))
    ensures ReadPairList(r) == Some(([pair] + more, after))
  {
  }

  /** `JSON.parse` of a whole header that is an array of string pairs,
      without whitespace; anything else is a syntax error here. */
  function ParsePairs(r: string): (p: Option<seq<(string, string)>>)
    ensures r == "[]" ==> p == Some([])
  {
    if r == "[]" then Some([])
    else if |r| == 0 || r[0] != '[' then None
    else match ReadPairList(r[1..])
      case Some((pairs, "]")) => Some(pairs)
      case _ => None
  }

  /** Round trip: `JSON.parse(JSON.stringify(pairs))` gives the pairs back. */
  lemma ParseJsonPairs(pairs: seq<(string, string)>)
    ensures ParsePairs(JsonPairs(pairs)) == Some(pairs)
  {
    if |pairs| > 0 {
      var tail := JsonPairList(pairs) + "]";
      assert JsonPairs(pairs) == ['['] + tail;
      DropFirst('[', tail);
      ReadJsonPairList(pairs, "]");
      NonEmptyPairList(pairs);
      ParsePairsStep(['['] + tail, pairs);
    }
  }

  lemma NonEmptyPairList(pairs: seq<(string, string)>)
    requires |pairs| > 0
    ensures |JsonPairList(pairs)| >= 2
  {
  }

  lemma ParsePairsStep(r: string, pairs: seq<(string, string)>)
    requires |r| > 3 && r[0] == '['
    requires ReadPairList(r[1..]) == Some((pairs, "]"))
    ensures ParsePairs(r) == Some(pairs)
  {
  }
}
