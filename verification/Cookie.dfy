// Writing a `Set-Cookie` value and reading a `Cookie` header back.

module PercentEncoding {
  import opened Bytes

  predicate Unreserved(b: Byte) {
    || 'a' as int <= b <= 'z' as int || 'A' as int <= b <= 'Z' as int || '0' as int <= b <= '9' as int
    || b == '-' as int || b == '_' as int || b == '.' as int || b == '~' as int
  }

  function HexDigit(n: int): (c: char)
    requires 0 <= n < 16
    ensures HexValue(c) == n
  {
    if n < 10 then (n + '0' as int) as char else (n - 10 + 'A' as int) as char
  }

  /** The value of a hex digit of either case; -1 for any other character. */
  function HexValue(c: char): (n: int)
    ensures -1 <= n < 16
  {
    if '0' <= c <= '9' then c as int - '0' as int
    else if 'A' <= c <= 'F' then c as int - 'A' as int + 10
    else if 'a' <= c <= 'f' then c as int - 'a' as int + 10
    else -1
  }

  /** Percent-encodes every byte but the unreserved ones. */
  function Encode(bytes: seq<Byte>): string {
    if bytes == [] then ""
    else
      (if Unreserved(bytes[0]) then [bytes[0] as char] else ['%', HexDigit(bytes[0] / 16), HexDigit(bytes[0] % 16)])
      + Encode(bytes[1..])
  }

  predicate Ascii(text: string) { forall i :: 0 <= i < |text| ==> text[i] as int < 128 }

  /** A `%` not followed by two hex digits stands for itself. */
  function Decode(text: string): seq<Byte>
    requires Ascii(text)
  {
    if text == "" then []
    else if text[0] == '%' && |text| > 2 && HexValue(text[1]) >= 0 && HexValue(text[2]) >= 0 then
      [16 * HexValue(text[1]) + HexValue(text[2])] + Decode(text[3..])
    else [text[0] as int] + Decode(text[1..])
  }

  predicate SafeChar(c: char) { c == '%' || (c as int < 128 && Unreserved(c as int)) }

  lemma {:induction false} EncodedIsSafe(bytes: seq<Byte>)
    ensures forall i :: 0 <= i < |Encode(bytes)| ==> SafeChar(Encode(bytes)[i])
    ensures Ascii(Encode(bytes))
  {
    if bytes != [] {
      EncodedIsSafe(bytes[1..]);
    }
  }

  /** Decoding undoes encoding, for every sequence of bytes. */
  lemma {:induction false} DecodeEncode(bytes: seq<Byte>)
    ensures Ascii(Encode(bytes)) && Decode(Encode(bytes)) == bytes
  {
    EncodedIsSafe(bytes);
    if bytes != [] {
      DecodeEncode(bytes[1..]);
      var text := Encode(bytes);
      if Unreserved(bytes[0]) {
        assert text[1..] == Encode(bytes[1..]);
      } else {
        assert text[3..] == Encode(bytes[1..]);
      }
      assert bytes == [bytes[0]] + bytes[1..];
    }
  }

  /** Both cases of a hex digit have its value, no other character has one. */
  lemma HexValues(c: char)
    ensures HexValue(c) >= 0 <==> '0' <= c <= '9' || 'A' <= c <= 'F' || 'a' <= c <= 'f'
    ensures 'A' <= c <= 'F' ==> HexValue(c) == c as int - 55
    ensures 'a' <= c <= 'f' ==> HexValue(c) == c as int - 87
    ensures '0' <= c <= '9' ==> HexValue(c) == c as int - 48
  {
  }

  /** What is not an escape is decoded as it stands, an unfinished one included. */
  lemma {:induction false} DecodesAsItStands(text: string)
    requires Ascii(text)
    requires forall i :: 0 <= i < |text| - 2 ==>
      text[i] == '%' ==> HexValue(text[i + 1]) < 0 || HexValue(text[i + 2]) < 0
    ensures |Decode(text)| == |text| && forall i :: 0 <= i < |text| ==> Decode(text)[i] == text[i] as int
  {
    if text != "" {
      var rest := text[1..];
      forall i | 0 <= i < |rest| - 2 && rest[i] == '%' ensures HexValue(rest[i + 1]) < 0 || HexValue(rest[i + 2]) < 0 {
        assert text[i + 1] == '%';
      }
      DecodesAsItStands(rest);
    }
  }

  /** An escape of either case is one byte. */
  lemma DecodesEscapes(high: char, low: char, rest: string)
    requires HexValue(high) >= 0 && HexValue(low) >= 0 && Ascii(rest)
    ensures var text := ['%', high, low] + rest;
      Ascii(text) && Decode(text) == [16 * HexValue(high) + HexValue(low)] + Decode(rest)
  {
    var text := ['%', high, low] + rest;
    assert text[3..] == rest;
  }
}

/** Keeping what a reader makes of the elements it can read. */
module FilterMaps {
  import opened Wrappers
  import opened Sequences

  function FilterMap<A, B>(xs: seq<A>, read: A -> Option<B>): seq<B> {
    if xs == [] then []
    else (if read(xs[0]).Some? then [read(xs[0]).value] else []) + FilterMap(xs[1..], read)
  }

  lemma {:induction false} Append<A, B>(one: seq<A>, two: seq<A>, read: A -> Option<B>)
    ensures FilterMap(one + two, read) == FilterMap(one, read) + FilterMap(two, read)
  {
    if one == [] {
      assert one + two == two;
    } else {
      assert (one + two)[1..] == one[1..] + two;
      Append(one[1..], two, read);
      ConcatAssociates(
        if read(one[0]).Some? then [read(one[0]).value] else [], FilterMap(one[1..], read), FilterMap(two, read));
    }
  }

  lemma {:induction false} NothingRead<A, B>(xs: seq<A>, read: A -> Option<B>)
    requires forall i :: 0 <= i < |xs| ==> read(xs[i]).None?
    ensures FilterMap(xs, read) == []
  {
    if xs != [] {
      NothingRead(xs[1..], read);
    }
  }

  lemma {:induction false} OneRead<A, B>(xs: seq<A>, i: nat, read: A -> Option<B>)
    requires i < |xs| && read(xs[i]).Some?
    ensures |FilterMap(xs, read)| >= 1
  {
    if i > 0 {
      OneRead(xs[1..], i - 1, read);
    }
  }

  /** The `i`th element can be read, and no other. */
  ghost predicate OnlyAt<A(!new), B(!new)>(xs: seq<A>, i: nat, read: A -> Option<B>) {
    && i < |xs| && read(xs[i]).Some?
    && forall k :: 0 <= k < |xs| && k != i ==> read(xs[k]).None?
  }

  lemma OnlyOneRead<A(!new), B(!new)>(xs: seq<A>, i: nat, read: A -> Option<B>)
    requires OnlyAt(xs, i, read)
    ensures FilterMap(xs, read) == [read(xs[i]).value]
  {
    assert xs == xs[..i] + [xs[i]] + xs[i + 1..];
    Append(xs[..i] + [xs[i]], xs[i + 1..], read);
    Append(xs[..i], [xs[i]], read);
    NothingRead(xs[..i], read);
    NothingRead(xs[i + 1..], read);
    assert FilterMap([xs[i]], read) == [read(xs[i]).value];
  }

  lemma TwoRead<A, B>(xs: seq<A>, i: nat, k: nat, read: A -> Option<B>)
    requires i < k < |xs| && read(xs[i]).Some? && read(xs[k]).Some?
    ensures |FilterMap(xs, read)| >= 2
  {
    assert xs == xs[..k] + xs[k..];
    Append(xs[..k], xs[k..], read);
    OneRead(xs[..k], i, read);
    OneRead(xs[k..], 0, read);
  }

  /** One value comes out exactly when one element can be read. */
  lemma ReadOnceIff<A(!new), B(!new)>(xs: seq<A>, read: A -> Option<B>)
    ensures |FilterMap(xs, read)| == 1 <==> exists i :: OnlyAt(xs, i, read)
  {
    if i :| OnlyAt(xs, i, read) {
      OnlyOneRead(xs, i, read);
    } else if i :| 0 <= i < |xs| && read(xs[i]).Some? {
      assert !OnlyAt(xs, i, read);
      var k :| 0 <= k < |xs| && k != i && read(xs[k]).Some?;
      TwoRead(xs, if i < k then i else k, if i < k then k else i, read);
    } else {
      NothingRead(xs, read);
    }
  }

  /** Elements that read alike give the same. */
  lemma {:induction false} SameReading<A, B>(xs: seq<A>, ys: seq<A>, read: A -> Option<B>)
    requires |xs| == |ys| && forall i :: 0 <= i < |xs| ==> read(xs[i]) == read(ys[i])
    ensures FilterMap(xs, read) == FilterMap(ys, read)
  {
    if xs != [] {
      SameReading(xs[1..], ys[1..], read);
    }
  }

  lemma {:induction false} EachWasRead<A, B>(xs: seq<A>, read: A -> Option<B>)
    ensures forall y <- FilterMap(xs, read) :: exists i :: 0 <= i < |xs| && read(xs[i]) == Some(y)
  {
    if xs != [] {
      EachWasRead(xs[1..], read);
      forall y <- FilterMap(xs, read) ensures exists i :: 0 <= i < |xs| && read(xs[i]) == Some(y) {
        if read(xs[0]) != Some(y) {
          assert y in FilterMap(xs[1..], read);
          var i :| 0 <= i < |xs[1..]| && read(xs[1..][i]) == Some(y);
          assert xs[1..][i] == xs[i + 1];
        }
      }
    }
  }
}

module Cookie {
  import opened Wrappers
  import opened Bytes
  import opened PercentEncoding
  import opened FilterMaps

  /** What the header library calls readable text: visible ASCII, blanks and tabs. */
  predicate Readable(header: string) {
    forall i :: 0 <= i < |header| ==> ' ' <= header[i] <= '~' || header[i] == '\t'
  }

  predicate Blank(c: char) { c == ' ' || c == '\t' }

  function TrimLeft(text: string): string {
    if text != "" && Blank(text[0]) then TrimLeft(text[1..]) else text
  }

  function TrimRight(text: string): string {
    if text != "" && Blank(text[|text| - 1]) then TrimRight(text[..|text| - 1]) else text
  }

  function Trim(text: string): string { TrimRight(TrimLeft(text)) }

  /** The parts of `text` between the occurrences of `at`. */
  function Split(text: string, at: char): (parts: seq<string>)
    ensures parts != []
  {
    if text == "" then [""]
    else
      var rest := Split(text[1..], at);
      if text[0] == at then [""] + rest else [[text[0]] + rest[0]] + rest[1..]
  }

  function SplitOnce(text: string, at: char): Option<(string, string)> {
    if text == "" then None
    else if text[0] == at then Some(("", text[1..]))
    else
      var rest := SplitOnce(text[1..], at);
      if rest.None? then None else Some(([text[0]] + rest.value.0, rest.value.1))
  }

  /** The value a part of the header gives the cookie `name`, still encoded. */
  function ValueIn(part: string, name: string): Option<string> {
    var pair := SplitOnce(Trim(part), '=');
    if pair.Some? && pair.value.0 == name then Some(pair.value.1) else None
  }

  /** The values a header gives the cookie `name`, still encoded. */
  function Values(header: string, name: string): seq<string> {
    FilterMap(Split(header, ';'), part => ValueIn(part, name))
  }

  /** Reads bytes as UTF-8, replacing what is not; the identity on the bytes of a text. */
  type Lossy = seq<Byte> -> seq<Byte>

  /** What a request's `Cookie` lines say about `name`, going by the first of them alone. */
  function ExtractCookie(headers: seq<string>, name: string, lossy: Lossy): Option<seq<Byte>> {
    if headers == [] || !Readable(headers[0]) then None
    else
      var values := Values(headers[0], name);
      ValuesAreReadable(headers[0], name);
      if |values| == 1 then Some(lossy(Decode(values[0]))) else None
  }

  function Digits(n: nat): (s: string)
    ensures s != "" && forall i :: 0 <= i < |s| ==> '0' <= s[i] <= '9'
  {
    var last := [(n % 10 + '0' as int) as char];
    if n < 10 then last else Digits(n / 10) + last
  }

  function Printed(n: int): (s: string)
    ensures ';' !in s
  {
    if n < 0 then "-" + Digits(-n) else Digits(n)
  }

  const HTTP_ONLY := " HttpOnly"
  const SAME_SITE := " SameSite=Lax"
  const SECURE := " Secure"

  function BuildCookie(name: string, value: seq<Byte>, path: string, maxAge: int, secure: bool): string {
    var attributes := name + "=" + Encode(value) + [';'] + HTTP_ONLY + [';'] + (" Path=" + path) + [';'] + SAME_SITE;
    var age := " Max-Age=" + Printed(maxAge);
    if secure then attributes + [';'] + SECURE + [';'] + age else attributes + [';'] + age
  }

  // ---- Splitting and joining ----

  lemma {:induction false} PartsAreReadable(text: string, at: char)
    requires Readable(text)
    ensures forall i :: 0 <= i < |Split(text, at)| ==> Readable(Split(text, at)[i])
  {
    if text != "" {
      PartsAreReadable(text[1..], at);
      var rest := Split(text[1..], at);
      assert Readable([text[0]] + rest[0]);
    }
  }

  lemma {:induction false} SecondIsATail(text: string, at: char)
    ensures var pair := SplitOnce(text, at);
            pair.Some? ==> |pair.value.1| < |text| && pair.value.1 == text[|text| - |pair.value.1|..]
  {
    if text != "" && text[0] != at {
      SecondIsATail(text[1..], at);
    }
  }

  lemma {:induction false} TrimKeepsReadable(text: string)
    requires Readable(text)
    ensures Readable(TrimLeft(text)) && Readable(TrimRight(text))
    decreases |text|
  {
    if text != "" {
      TrimKeepsReadable(text[1..]);
      TrimKeepsReadable(text[..|text| - 1]);
    }
  }

  lemma ValueIsReadable(part: string, name: string)
    requires Readable(part)
    ensures ValueIn(part, name).Some? ==> Readable(ValueIn(part, name).value)
  {
    TrimKeepsReadable(part);
    TrimKeepsReadable(TrimLeft(part));
    SecondIsATail(Trim(part), '=');
  }

  lemma ValuesAreReadable(header: string, name: string)
    requires Readable(header)
    ensures forall value <- Values(header, name) :: Readable(value) && Ascii(value)
  {
    var parts := Split(header, ';');
    PartsAreReadable(header, ';');
    EachWasRead(parts, part => ValueIn(part, name));
    forall value <- Values(header, name) ensures Readable(value) {
      var i :| 0 <= i < |parts| && ValueIn(parts[i], name) == Some(value);
      ValueIsReadable(parts[i], name);
    }
  }

  lemma {:induction false} SplitOfPlain(text: string, at: char)
    requires at !in text
    ensures Split(text, at) == [text]
  {
    if text != "" {
      assert text == [text[0]] + text[1..];
      SplitOfPlain(text[1..], at);
    }
  }

  lemma {:induction false} SplitOnceAfterPlain(first: string, at: char, rest: string)
    requires at !in first
    ensures SplitOnce(first + [at] + rest, at) == Some((first, rest))
  {
    var text := first + [at] + rest;
    if first == "" {
      assert text[1..] == rest;
    } else {
      assert first == [first[0]] + first[1..];
      SplitOnceAfterPlain(first[1..], at, rest);
      assert text[1..] == first[1..] + [at] + rest;
    }
  }

  function Joined(parts: seq<string>): string
    requires parts != []
  {
    if |parts| == 1 then parts[0] else parts[0] + [';'] + Joined(parts[1..])
  }

  /** Every element but the first with a space in front. */
  function Spaced(parts: seq<string>): seq<string> {
    seq(|parts|, i requires 0 <= i < |parts| => if i == 0 then parts[0] else " " + parts[i])
  }

  /** The `Cookie` header of section 4.2.1 of RFC 6265: a semicolon and a space between the pairs. */
  function CookieHeader(pairs: seq<string>): string
    requires pairs != []
  {
    Joined(Spaced(pairs))
  }

  lemma {:induction false} SplitUndoesJoin(parts: seq<string>)
    requires parts != [] && forall i :: 0 <= i < |parts| ==> ';' !in parts[i]
    ensures Split(Joined(parts), ';') == parts
  {
    if |parts| == 1 {
      SplitOfPlain(parts[0], ';');
      assert parts == [parts[0]];
    } else {
      SplitUndoesJoin(parts[1..]);
      SplitOfPlain(parts[0], ';');
      SplitAtSeparator(parts[0], ';', Joined(parts[1..]));
      assert parts == [parts[0]] + parts[1..];
    }
  }

  lemma ValuesOfHeader(pairs: seq<string>, name: string)
    requires pairs != [] && forall i :: 0 <= i < |pairs| ==> ';' !in pairs[i]
    ensures Values(CookieHeader(pairs), name) == FilterMap(pairs, part => ValueIn(part, name))
  {
    SplitUndoesJoin(Spaced(pairs));
    forall i | 0 <= i < |pairs| ensures ValueIn(Spaced(pairs)[i], name) == ValueIn(pairs[i], name) {
      LeadingBlank(pairs[i]);
    }
    SameReading(Spaced(pairs), pairs, part => ValueIn(part, name));
  }

  lemma LeadingBlank(part: string)
    ensures Trim(" " + part) == Trim(part)
  {
    assert (" " + part)[1..] == part;
  }

  /** A cookie name: readable, without `=`, `;` or blanks. */
  predicate IsName(name: string) {
    forall c <- name :: '!' <= c <= '~' && c != '=' && c != ';'
  }

  lemma TrimPlain(text: string)
    requires text != "" ==> !Blank(text[0]) && !Blank(text[|text| - 1])
    ensures Trim(text) == text
  {
  }

  lemma OwnPair(name: string, value: seq<Byte>)
    requires IsName(name)
    ensures ValueIn(name + "=" + Encode(value), name) == Some(Encode(value))
    ensures Readable(name + "=" + Encode(value)) && ';' !in name + "=" + Encode(value)
  {
    EncodedIsSafe(value);
    PairOf(name, Encode(value));
  }

  lemma PairOf(name: string, encoded: string)
    requires IsName(name) && forall i :: 0 <= i < |encoded| ==> SafeChar(encoded[i])
    ensures ValueIn(name + "=" + encoded, name) == Some(encoded)
    ensures Readable(name + "=" + encoded) && ';' !in name + "=" + encoded
  {
    var text := name + "=" + encoded;
    forall i | 0 <= i < |text| ensures '!' <= text[i] <= '~' && text[i] != ';' {
      if i < |name| {
        assert text[i] == name[i] && name[i] in name;
      } else if i == |name| {
        assert text[i] == '=';
      } else {
        assert text[i] == encoded[i - |name| - 1];
      }
    }
    TrimPlain(text);
    SplitOnceAfterPlain(name, '=', encoded);
    assert text == name + ['='] + encoded;
  }

  /** Parts of a `Cookie` header that name other cookies, or none at all. */
  predicate OthersOnly(parts: seq<string>, name: string) {
    forall i :: 0 <= i < |parts| ==> ';' !in parts[i] && Readable(parts[i]) && ValueIn(parts[i], name).None?
  }

  lemma {:induction false} JoinedIsReadable(parts: seq<string>)
    requires parts != [] && forall i :: 0 <= i < |parts| ==> Readable(parts[i])
    ensures Readable(Joined(parts))
  {
    if |parts| > 1 {
      JoinedIsReadable(parts[1..]);
    }
  }

  /** Whatever text a cookie is given comes back, among any other cookies. */
  lemma CookieRoundTrip(name: string, value: seq<Byte>, before: seq<string>, after: seq<string>, more: seq<string>, lossy: Lossy)
    requires IsName(name) && lossy(value) == value
    requires OthersOnly(before, name) && OthersOnly(after, name)
    ensures ExtractCookie([CookieHeader(before + [name + "=" + Encode(value)] + after)] + more, name, lossy) == Some(value)
  {
    var pair := name + "=" + Encode(value);
    OwnPair(name, value);
    var parts := before + [pair] + after;
    JoinedIsReadable(Spaced(parts));
    ValuesOfHeader(parts, name);
    var read := part => ValueIn(part, name);
    Append(before + [pair], after, read);
    Append(before, [pair], read);
    NothingRead(before, read);
    NothingRead(after, read);
    assert FilterMap([pair], read) == [Encode(value)];
    DecodeEncode(value);
  }

  /** A name sent twice in the header that is read yields nothing, whatever its values. */
  lemma SentTwiceIsRefused(parts: seq<string>, i: nat, j: nat, name: string, more: seq<string>, lossy: Lossy)
    requires i < j < |parts| && forall k :: 0 <= k < |parts| ==> ';' !in parts[k]
    requires ValueIn(parts[i], name).Some? && ValueIn(parts[j], name).Some?
    ensures ExtractCookie([CookieHeader(parts)] + more, name, lossy) == None
  {
    ValuesOfHeader(parts, name);
    TwoRead(parts, i, j, part => ValueIn(part, name));
  }

  /** The `k`th part of the line names the cookie. */
  predicate NamedAt(line: string, k: nat, name: string) {
    var parts := Split(line, ';');
    k < |parts| && ValueIn(parts[k], name).Some?
  }

  /** No other part of the line does. */
  ghost predicate OnlyNamedAt(line: string, k: nat, name: string) {
    NamedAt(line, k, name) && forall j :: NamedAt(line, j, name) ==> j == k
  }

  ghost predicate HeldOnce(line: string, name: string) {
    exists k :: OnlyNamedAt(line, k, name)
  }

  /** The cookie comes in two places, of one line or of two. */
  ghost predicate SentTwice(lines: seq<string>, name: string) {
    exists a, j, b, k | 0 <= a < |lines| && 0 <= b < |lines| ::
      NamedAt(lines[a], j, name) && NamedAt(lines[b], k, name) && (a != b || j != k)
  }

  lemma OneValueIffHeldOnce(line: string, name: string)
    ensures |Values(line, name)| == 1 <==> HeldOnce(line, name)
  {
    var parts, read := Split(line, ';'), part => ValueIn(part, name);
    ReadOnceIff(parts, read);
    if i :| OnlyAt(parts, i, read) {
      assert OnlyNamedAt(line, i, name);
    }
    if k :| OnlyNamedAt(line, k, name) {
      forall j | 0 <= j < |parts| && j != k ensures read(parts[j]).None? {
        assert !NamedAt(line, j, name);
      }
      assert OnlyAt(parts, k, read);
    }
  }

  /** A cookie is read exactly when the first line is readable and holds its name once, whatever other lines hold. */
  lemma ReadIffHeldOnce(lines: seq<string>, name: string, lossy: Lossy)
    ensures ExtractCookie(lines, name, lossy).Some? <==> lines != [] && Readable(lines[0]) && HeldOnce(lines[0], name)
  {
    if lines != [] {
      OneValueIffHeldOnce(lines[0], name);
    }
  }

  /**
   * "A cookie sent more than once is refused" holds for one that is, in all its lines, exactly when the
   * first line is unreadable or does not hold it once; always, if there is but one line.
   */
  lemma SentTwiceRefusedIff(lines: seq<string>, name: string, lossy: Lossy)
    requires SentTwice(lines, name)
    ensures ExtractCookie(lines, name, lossy) == None <==> !Readable(lines[0]) || !HeldOnce(lines[0], name)
    ensures |lines| == 1 ==> ExtractCookie(lines, name, lossy) == None
  {
    ReadIffHeldOnce(lines, name, lossy);
    if |lines| == 1 {
      var a, j, b, k :| 0 <= a < |lines| && 0 <= b < |lines|
        && NamedAt(lines[a], j, name) && NamedAt(lines[b], k, name) && (a != b || j != k);
      assert a == 0 && b == 0 && !HeldOnce(lines[0], name);
    }
  }

  /** The check for a name sent twice sees one header line: a second `Cookie` line is never looked at. */
  lemma LaterLinesAreIgnored(name: string, ours: seq<Byte>, planted: seq<Byte>, lossy: Lossy)
    requires IsName(name) && lossy(ours) == ours
    ensures ExtractCookie([name + "=" + Encode(ours), name + "=" + Encode(planted)], name, lossy) == Some(ours)
  {
    var pair := name + "=" + Encode(ours);
    CookieRoundTrip(name, ours, [], [], [name + "=" + Encode(planted)], lossy);
    assert [] + [pair] + [] == [pair];
    assert [pair, name + "=" + Encode(planted)] == [pair] + [name + "=" + Encode(planted)];
  }

  // ---- What a part of the header says ----

  predicate AllBlank(text: string) { forall i :: 0 <= i < |text| ==> Blank(text[i]) }

  lemma {:induction false} TrimLeftDropsBlanks(blanks: string, text: string)
    requires AllBlank(blanks) && (text != "" ==> !Blank(text[0]))
    ensures TrimLeft(blanks + text) == text
  {
    if blanks == "" {
      assert blanks + text == text;
    } else {
      assert (blanks + text)[1..] == blanks[1..] + text;
      TrimLeftDropsBlanks(blanks[1..], text);
    }
  }

  lemma {:induction false} TrimRightDropsBlanks(text: string, blanks: string)
    requires AllBlank(blanks) && (text != "" ==> !Blank(text[|text| - 1]))
    ensures TrimRight(text + blanks) == text
  {
    var n := |blanks| - 1;
    if blanks == "" {
      assert text + blanks == text;
    } else {
      assert (text + blanks)[..|text + blanks| - 1] == text + blanks[..n];
      TrimRightDropsBlanks(text, blanks[..n]);
    }
  }

  lemma TrimDropsBlanks(before: string, text: string, after: string)
    requires AllBlank(before) && AllBlank(after)
    requires text != "" && !Blank(text[0]) && !Blank(text[|text| - 1])
    ensures Trim(before + text + after) == text
  {
    assert before + text + after == before + (text + after);
    TrimLeftDropsBlanks(before, text + after);
    TrimRightDropsBlanks(text, after);
  }

  lemma {:induction false} NothingToSplit(text: string, at: char)
    ensures SplitOnce(text, at).None? <==> at !in text
  {
    if text != "" {
      assert text == [text[0]] + text[1..];
      NothingToSplit(text[1..], at);
    }
  }

  /** A part with blanks around it names the cookie before its first `=`, and no other; what follows is the value. */
  lemma PartNamesOneCookie(before: string, own: string, value: string, after: string, name: string)
    requires AllBlank(before) && AllBlank(after) && '=' !in own
    requires (own != "" ==> !Blank(own[0])) && (value != "" ==> !Blank(value[|value| - 1]))
    ensures ValueIn(before + (own + "=" + value) + after, name) == if own == name then Some(value) else None
  {
    TrimDropsBlanks(before, own + "=" + value, after);
    SplitOnceAfterPlain(own, '=', value);
    assert own + "=" + value == own + ['='] + value;
  }

  /** A part without `=` names none. */
  lemma PartWithoutEqualsNamesNone(part: string, name: string)
    requires '=' !in part
    ensures ValueIn(part, name) == None
  {
    TrimOnlyDrops(part);
    NothingToSplit(Trim(part), '=');
  }

  lemma TrimOnlyDrops(text: string)
    ensures forall c :: c in Trim(text) ==> c in text
  {
    LeftOnlyDrops(text);
    RightOnlyDrops(TrimLeft(text));
  }

  lemma {:induction false} LeftOnlyDrops(text: string)
    ensures forall c :: c in TrimLeft(text) ==> c in text
  {
    if text != "" {
      LeftOnlyDrops(text[1..]);
    }
  }

  lemma {:induction false} RightOnlyDrops(text: string)
    ensures forall c :: c in TrimRight(text) ==> c in text
  {
    if text != "" {
      RightOnlyDrops(text[..|text| - 1]);
    }
  }

  /** Cookies of other names, as pairs: readable, with names without `=` or `;` and values without `;`. */
  predicate OtherPairs(pairs: seq<(string, string)>, name: string) {
    forall i :: 0 <= i < |pairs| ==>
      && IsName(pairs[i].0) && pairs[i].0 != name
      && ';' !in pairs[i].1 && Readable(pairs[i].1)
      && (pairs[i].1 != "" ==> !Blank(pairs[i].1[|pairs[i].1| - 1]))
  }

  function Written(pairs: seq<(string, string)>): seq<string> {
    seq(|pairs|, i requires 0 <= i < |pairs| => pairs[i].0 + "=" + pairs[i].1)
  }

  lemma OtherPairsAreOthers(pairs: seq<(string, string)>, name: string)
    requires OtherPairs(pairs, name)
    ensures OthersOnly(Written(pairs), name)
  {
    forall i | 0 <= i < |pairs|
      ensures var part := Written(pairs)[i]; ';' !in part && Readable(part) && ValueIn(part, name).None?
    {
      var own, value := pairs[i].0, pairs[i].1;
      OtherPair(own, value, name);
    }
  }

  lemma OtherPair(own: string, value: string, name: string)
    requires IsName(own) && own != name && ';' !in value && Readable(value)
    requires value != "" ==> !Blank(value[|value| - 1])
    ensures var part := own + "=" + value; ';' !in part && Readable(part) && ValueIn(part, name).None?
  {
    var part := own + "=" + value;
    forall i | 0 <= i < |part| ensures (' ' <= part[i] <= '~' || part[i] == '\t') && part[i] != ';' {
      if i < |own| {
        assert part[i] == own[i] && own[i] in own;
      } else if i > |own| {
        assert part[i] == value[i - |own| - 1];
      }
    }
    assert own != "" ==> own[0] in own;
    PartNamesOneCookie("", own, value, "", name);
    assert "" + part + "" == part;
  }

  /** Among any other cookies, however many, a cookie is read back as it was set. */
  lemma RoundTripAmongPairs(name: string, value: seq<Byte>, before: seq<(string, string)>, after: seq<(string, string)>,
                            more: seq<string>, lossy: Lossy)
    requires IsName(name) && lossy(value) == value
    requires OtherPairs(before, name) && OtherPairs(after, name)
    ensures ExtractCookie([CookieHeader(Written(before) + [name + "=" + Encode(value)] + Written(after))] + more, name, lossy)
         == Some(value)
  {
    OtherPairsAreOthers(before, name);
    OtherPairsAreOthers(after, name);
    CookieRoundTrip(name, value, Written(before), Written(after), more, lossy);
  }

  // ---- What a browser is told ----

  /** The number that decimal digits stand for. */
  function ValueOf(digits: string): int {
    if digits == "" then 0 else 10 * ValueOf(digits[..|digits| - 1]) + digits[|digits| - 1] as int - '0' as int
  }

  /** The age is printed as the number it is. */
  lemma {:induction false} DigitsAreTheNumber(n: nat)
    ensures ValueOf(Digits(n)) == n && (Digits(n)[0] == '0' ==> n == 0)
  {
    var last := [(n % 10 + '0' as int) as char];
    if n >= 10 {
      DigitsAreTheNumber(n / 10);
      assert Digits(n)[..|Digits(n)| - 1] == Digits(n / 10);
    } else {
      assert Digits(n) == last && last[..0] == "";
      assert ValueOf("") == 0;
    }
  }

  lemma PrintedIsTheNumber(n: int)
    ensures n >= 0 ==> ValueOf(Printed(n)) == n
    ensures n < 0 ==> Printed(n)[0] == '-' && ValueOf(Printed(n)[1..]) == -n
  {
    DigitsAreTheNumber(if n < 0 then -n else n);
  }

  /** No value can add or change an attribute: the parts of the header are these, for every value. */
  lemma ValueAddsNoAttributes(name: string, value: seq<Byte>, path: string, maxAge: int, secure: bool)
    requires IsName(name) && ';' !in path
    ensures Split(BuildCookie(name, value, path, maxAge, secure), ';')
         == if secure
            then [name + "=" + Encode(value), " HttpOnly", " Path=" + path, " SameSite=Lax", " Secure", " Max-Age=" + Printed(maxAge)]
            else [name + "=" + Encode(value), " HttpOnly", " Path=" + path, " SameSite=Lax", " Max-Age=" + Printed(maxAge)]
  {
    OwnPair(name, value);
    var pair, where, age := name + "=" + Encode(value), " Path=" + path, " Max-Age=" + Printed(maxAge);
    PlainAfter(" Path=", path);
    PlainAfter(" Max-Age=", Printed(maxAge));
    AttributesArePlain();
    if secure {
      SixParts(pair, HTTP_ONLY, where, SAME_SITE, SECURE, age);
    } else {
      FiveParts(pair, HTTP_ONLY, where, SAME_SITE, age);
    }
  }

  lemma PlainAfter(front: string, text: string)
    requires ';' !in front && ';' !in text
    ensures ';' !in front + text
  {
  }

  lemma AttributesArePlain()
    ensures ';' !in HTTP_ONLY && ';' !in SAME_SITE && ';' !in SECURE
  {
  }

  lemma OnePart(front: string, parts: seq<string>, last: string)
    requires Split(front, ';') == parts && ';' !in last
    ensures Split(front + [';'] + last, ';') == parts + [last]
  {
    SplitOfPlain(last, ';');
    SplitAtSeparator(front, ';', last);
  }

  lemma {:induction false} SplitAtSeparator(front: string, at: char, rest: string)
    ensures Split(front + [at] + rest, at) == Split(front, at) + Split(rest, at)
  {
    var text := front + [at] + rest;
    if front == "" {
      assert text[1..] == rest;
    } else {
      SplitAtSeparator(front[1..], at, rest);
      assert text[1..] == front[1..] + [at] + rest;
      SplitHead(text[0], at, Split(front[1..], at), Split(rest, at));
    }
  }

  lemma SplitHead(c: char, at: char, front: seq<string>, rest: seq<string>)
    requires front != []
    ensures [""] + (front + rest) == ([""] + front) + rest
    ensures [[c] + (front + rest)[0]] + (front + rest)[1..] == ([[c] + front[0]] + front[1..]) + rest
  {
  }

  lemma FiveParts(a: string, b: string, c: string, d: string, e: string)
    requires ';' !in a && ';' !in b && ';' !in c && ';' !in d && ';' !in e
    ensures Split(a + [';'] + b + [';'] + c + [';'] + d + [';'] + e, ';') == [a, b, c, d, e]
  {
    SplitOfPlain(a, ';');
    OnePart(a, [a], b);
    OnePart(a + [';'] + b, [a, b], c);
    OnePart(a + [';'] + b + [';'] + c, [a, b, c], d);
    OnePart(a + [';'] + b + [';'] + c + [';'] + d, [a, b, c, d], e);
  }

  lemma SixParts(a: string, b: string, c: string, d: string, e: string, f: string)
    requires ';' !in a && ';' !in b && ';' !in c && ';' !in d && ';' !in e && ';' !in f
    ensures Split(a + [';'] + b + [';'] + c + [';'] + d + [';'] + e + [';'] + f, ';') == [a, b, c, d, e, f]
  {
    FiveParts(a, b, c, d, e);
    OnePart(a + [';'] + b + [';'] + c + [';'] + d + [';'] + e, [a, b, c, d, e], f);
  }

  /** What a browser sends back for a cookie it was given: the first part of the `Set-Cookie` value. */
  function SentBack(setCookie: string): string { Split(setCookie, ';')[0] }

  /** From `Set-Cookie` to the next request: a cookie comes back as it was set, among any others. */
  lemma SetThenExtract(name: string, value: seq<Byte>, path: string, maxAge: int, secure: bool,
                       before: seq<string>, after: seq<string>, more: seq<string>, lossy: Lossy)
    requires IsName(name) && ';' !in path && lossy(value) == value
    requires OthersOnly(before, name) && OthersOnly(after, name)
    ensures var pair := SentBack(BuildCookie(name, value, path, maxAge, secure));
            ExtractCookie([CookieHeader(before + [pair] + after)] + more, name, lossy) == Some(value)
  {
    ValueAddsNoAttributes(name, value, path, maxAge, secure);
    CookieRoundTrip(name, value, before, after, more, lossy);
  }
}
