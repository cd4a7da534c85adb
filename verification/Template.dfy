// The text language of the translation files: `{name}` stands for a value, `{{` and `}}` for braces.
// Two independent scanners read it, one to fill texts in and one to check them when they are loaded.

module Template {
  import opened Wrappers
  import opened Sequences

  /** A value Kratos sends along with a message; `Number` carries its printed digits. */
  datatype Value = Text(text: string) | Number(digits: string) | Flag(on: bool) | Compound

  type Context = map<string, Value>

  function Shown(value: Value): Option<string> {
    match value
    case Text(text) => Some(text)
    case Number(digits) => Some(digits)
    case Flag(on) => Some(if on then "true" else "false")
    case Compound => None
  }

  function Lookup(context: Context, name: string): Option<string> {
    if name in context then Shown(context[name]) else None
  }

  /** What a template is made of. */
  datatype Piece = Literal(c: char) | Name(name: string)

  predicate IsBrace(c: char) { c == '{' || c == '}' }

  predicate WellFormed(piece: Piece) {
    piece.Name? ==> '}' !in piece.name && (piece.name != "" ==> piece.name[0] != '{')
  }

  /** The canonical way to write pieces down. */
  function Print(pieces: seq<Piece>): string {
    if pieces == [] then ""
    else
      (match pieces[0]
       case Literal(c) => if IsBrace(c) then [c, c] else [c]
       case Name(name) => "{" + name + "}")
      + Print(pieces[1..])
  }

  function IndexOf(text: string, c: char): (at: nat)
    ensures at <= |text| && c !in text[..at]
    ensures at < |text| ==> text[at] == c
    ensures at == |text| <==> c !in text
  {
    if text == "" then 0
    else if text[0] == c then 0
    else
      assert text == [text[0]] + text[1..];
      var at := 1 + IndexOf(text[1..], c);
      assert text[..at] == [text[0]] + text[1..][..at - 1];
      at
  }

  function Prepend<T>(front: seq<T>, rest: Option<seq<T>>): Option<seq<T>> {
    if rest.Some? then Some(front + rest.value) else None
  }

  /** Takes a template apart; `None` if a name has no end. */
  function Parse(template: string): Option<seq<Piece>>
    decreases |template|
  {
    if template == "" then Some([])
    else
      var c := template[0];
      if IsBrace(c) && |template| > 1 && template[1] == c then Prepend([Literal(c)], Parse(template[2..]))
      else if c == '{' then
        var close := IndexOf(template, '}');
        if close == |template| then None
        else Prepend([Name(template[1..close])], Parse(template[close + 1..]))
      else Prepend([Literal(c)], Parse(template[1..]))
  }

  function Render(pieces: seq<Piece>, context: Context): Option<string> {
    if pieces == [] then Some("")
    else
      match pieces[0]
      case Literal(c) => Prepend([c], Render(pieces[1..], context))
      case Name(name) =>
        var value := Lookup(context, name);
        if value.None? then None else Prepend(value.value, Render(pieces[1..], context))
  }

  function Names(pieces: seq<Piece>): seq<string> {
    if pieces == [] then []
    else (if pieces[0].Name? then [pieces[0].name] else []) + Names(pieces[1..])
  }

  function Filled(template: string, context: Context): Option<string> {
    var pieces := Parse(template);
    if pieces.None? then None else Render(pieces.value, context)
  }

  function Listed(template: string): Option<seq<string>> {
    var pieces := Parse(template);
    if pieces.None? then None else Some(Names(pieces.value))
  }

  // ---- The two scanners ----

  /** Fills a template in, one character at a time with one of look-ahead. */
  method Fill(template: string, context: Context) returns (filled: Option<string>)
    ensures filled == Filled(template, context)
  {
    var out: string := "";
    var i := 0;
    assert template[0..] == template;
    PrependNothing(Filled(template, context));
    while i < |template|
      invariant FilledSoFar(template, context, out, i)
    {
      var c := template[i];
      if IsBrace(c) && i + 1 < |template| && template[i + 1] == c {
        FilledLiteral(template, context, out, i, 2);
        out := out + [c];
        i := i + 2;
      } else if c == '{' {
        var name, next := ReadName(template, i + 1);
        if name.None? {
          FilledUnclosed(template, context, out, i);
          return None;
        }
        FilledName(template, context, out, i, name.value, next);
        if name.value !in context || context[name.value].Compound? {
          return None;
        }
        out := out + Shown(context[name.value]).value;
        i := next;
      } else {
        FilledLiteral(template, context, out, i, 1);
        out := out + [c];
        i := i + 1;
      }
    }
    FilledToTheEnd(template, context, out, i);
    filled := Some(out);
  }

  /** The name that starts at `from`, and where the text goes on after its `}`. */
  method ReadName(template: string, from: nat) returns (name: Option<string>, next: nat)
    requires from <= |template|
    ensures name.None? ==> '}' !in template[from..]
    ensures name.Some? ==>
      from < next <= |template| && name.value == template[from..next - 1]
      && template[next - 1] == '}' && '}' !in name.value
  {
    var read: string := "";
    next := from;
    while next < |template|
      invariant from <= next <= |template|
      invariant read == template[from..next] && '}' !in read
    {
      var d := template[next];
      next := next + 1;
      if d == '}' {
        return Some(read), next;
      }
      read := read + [d];
    }
    name := None;
  }

  /** The names a template uses, found by jumping from brace to brace. */
  method Placeholders(template: string) returns (listed: Option<seq<string>>)
    ensures listed == Listed(template)
  {
    var names: seq<string> := [];
    var rest := template;
    PrependNothing(Listed(template));
    while true
      invariant Listed(template) == Prepend(names, Listed(rest))
      decreases |rest|
    {
      var at := FirstBrace(rest);
      SkipPlain(rest, at);
      if at == |rest| {
        break;
      }
      var here := rest[at..];
      if |here| > 1 && here[0] == here[1] {
        ListedLiteral(here, 2);
        rest := here[2..];
      } else if here[0] == '{' {
        var open := here[1..];
        var close := IndexOf(open, '}');
        if close == |open| {
          ListedUnclosed(here);
          return None;
        }
        ListedName(here, close);
        PrependTwice(names, [open[..close]], Listed(here[close + 2..]));
        names := names + [open[..close]];
        rest := open[close + 1..];
      } else {
        ListedLiteral(here, 1);
        rest := here[1..];
      }
    }
    assert names + [] == names;
    listed := Some(names);
  }

  function FirstBrace(text: string): (at: nat)
    ensures at <= |text|
    ensures at < |text| ==> IsBrace(text[at])
    ensures forall i :: 0 <= i < at ==> !IsBrace(text[i])
  {
    if text == "" || IsBrace(text[0]) then 0 else 1 + FirstBrace(text[1..])
  }

  // ---- One step of either scanner ----

  lemma PrependNothing<T>(rest: Option<seq<T>>)
    ensures Prepend([], rest) == rest
  {
    if rest.Some? {
      assert [] + rest.value == rest.value;
    }
  }

  lemma PrependTwice<T>(a: seq<T>, b: seq<T>, rest: Option<seq<T>>)
    ensures Prepend(a, Prepend(b, rest)) == Prepend(a + b, rest)
  {
    if rest.Some? {
      assert a + (b + rest.value) == (a + b) + rest.value;
    }
  }

  lemma ConsLaws(piece: Piece, rest: Option<seq<Piece>>)
    ensures rest.Some? ==> ([piece] + rest.value)[0] == piece && ([piece] + rest.value)[1..] == rest.value
  {
  }

  /** `out` is what the first `i` characters of the template stand for. */
  ghost predicate FilledSoFar(template: string, context: Context, out: string, i: nat) {
    i <= |template| && Filled(template, context) == Prepend(out, Filled(template[i..], context))
  }

  /** At `i`, a literal `width` characters wide. */
  predicate LiteralAt(text: string, i: nat, width: nat) {
    && 1 <= width <= 2 && i + width <= |text|
    && if width == 2 then IsBrace(text[i]) && text[i + 1] == text[i]
       else text[i] != '{' && (text[i] == '}' ==> i + 1 == |text| || text[i + 1] != '}')
  }

  lemma FilledLiteral(template: string, context: Context, out: string, i: nat, width: nat)
    requires FilledSoFar(template, context, out, i) && LiteralAt(template, i, width)
    ensures FilledSoFar(template, context, out + [template[i]], i + width)
  {
    var left, c := template[i..], template[i];
    ConsLaws(Literal(c), Parse(left[width..]));
    assert left[width..] == template[i + width..];
    PrependTwice(out, [c], Filled(left[width..], context));
  }

  lemma FilledToTheEnd(template: string, context: Context, out: string, i: nat)
    requires FilledSoFar(template, context, out, i) && i == |template|
    ensures Filled(template, context) == Some(out)
  {
    assert template[i..] == "" && out + "" == out;
  }

  lemma CloseAt(text: string, length: nat)
    requires length + 1 < |text| && text[0] == '{' && text[length + 1] == '}' && '}' !in text[1..length + 1]
    ensures IndexOf(text, '}') == length + 1
  {
    var at := IndexOf(text, '}');
    assert forall i :: 1 <= i <= length ==> text[1..length + 1][i - 1] == text[i];
    assert forall i :: 0 <= i < at ==> text[..at][i] == text[i];
  }

  lemma FilledName(template: string, context: Context, out: string, i: nat, name: string, next: nat)
    requires FilledSoFar(template, context, out, i)
    requires i + 1 < next <= |template| && template[i] == '{' && template[i + 1] != '{'
    requires name == template[i + 1..next - 1] && template[next - 1] == '}' && '}' !in name
    ensures if Lookup(context, name).Some?
            then FilledSoFar(template, context, out + Lookup(context, name).value, next)
            else Filled(template, context) == None
  {
    var left := template[i..];
    assert left[1..|name| + 1] == name && left[|name| + 2..] == template[next..];
    CloseAt(left, |name|);
    ConsLaws(Name(name), Parse(left[|name| + 2..]));
    if Lookup(context, name).Some? {
      PrependTwice(out, Lookup(context, name).value, Filled(template[next..], context));
    }
  }

  lemma FilledUnclosed(template: string, context: Context, out: string, i: nat)
    requires FilledSoFar(template, context, out, i)
    requires i < |template| && template[i] == '{' && '}' !in template[i + 1..]
    requires i + 1 < |template| ==> template[i + 1] != '{'
    ensures Filled(template, context) == None
  {
    assert template[i..] == [template[i]] + template[i + 1..];
    assert '}' !in template[i..];
  }

  lemma ListedLiteral(text: string, width: nat)
    requires LiteralAt(text, 0, width)
    ensures Listed(text) == Listed(text[width..])
  {
    var rest := Parse(text[width..]);
    ConsLaws(Literal(text[0]), rest);
    if rest.Some? {
      assert [] + Names(rest.value) == Names(rest.value);
    }
  }

  lemma ListedName(text: string, length: nat)
    requires length + 1 < |text| && text[0] == '{' && text[length + 1] == '}' && '}' !in text[1..][..length]
    requires text[1] != '{'
    ensures Listed(text) == Prepend([text[1..][..length]], Listed(text[length + 2..]))
    ensures text[1..][length + 1..] == text[length + 2..]
  {
    assert text[1..][..length] == text[1..length + 1];
    CloseAt(text, length);
    ConsLaws(Name(text[1..length + 1]), Parse(text[length + 2..]));
  }

  lemma ListedUnclosed(text: string)
    requires text != "" && text[0] == '{' && '}' !in text[1..]
    requires |text| > 1 ==> text[1] != '{'
    ensures Listed(text) == None
  {
    assert text == [text[0]] + text[1..];
    assert '}' !in text;
  }

  lemma {:induction false} SkipPlain(text: string, at: nat)
    requires at <= |text| && forall i :: 0 <= i < at ==> !IsBrace(text[i])
    ensures Listed(text) == Listed(text[at..])
    ensures at == |text| ==> Listed(text) == Some([])
  {
    if at == 0 {
      assert text[at..] == text;
    } else {
      ListedLiteral(text, 1);
      SkipPlain(text[1..], at - 1);
      assert text[1..][at - 1..] == text[at..];
    }
  }

  // ---- What the language means ----

  lemma {:induction false} ParseYieldsWellFormed(template: string)
    ensures Parse(template).Some? ==> forall piece <- Parse(template).value :: WellFormed(piece)
    decreases |template|
  {
    if template != "" {
      var c := template[0];
      if IsBrace(c) && |template| > 1 && template[1] == c {
        ParseYieldsWellFormed(template[2..]);
      } else if c == '{' {
        var close := IndexOf(template, '}');
        if close < |template| {
          ParseYieldsWellFormed(template[close + 1..]);
          forall i | 1 <= i < close ensures template[i] != '}' {
            assert template[..close][i] == template[i];
          }
        }
      } else {
        ParseYieldsWellFormed(template[1..]);
      }
    }
  }

  /**
   * How a template may spell its pieces: a brace is doubled, a closing one may also stand alone where no
   * other follows, a name stands between braces, and any other character for itself.
   */
  predicate Reads(template: string, pieces: seq<Piece>)
    decreases |pieces|
  {
    if pieces == [] then template == ""
    else match pieces[0]
      case Literal('{') => |template| >= 2 && template[..2] == "{{" && Reads(template[2..], pieces[1..])
      case Literal('}') =>
        template != "" && template[0] == '}'
        && Reads(if |template| >= 2 && template[1] == '}' then template[2..] else template[1..], pieces[1..])
      case Literal(c) => template != "" && template[0] == c && Reads(template[1..], pieces[1..])
      case Name(name) =>
        && '}' !in name && |template| >= |name| + 2
        && template[0] == '{' && template[1] != '{' && template[1..|name| + 1] == name && template[|name| + 1] == '}'
        && Reads(template[|name| + 2..], pieces[1..])
  }

  lemma {:induction false} ParsedIsRead(template: string)
    ensures Parse(template).Some? ==> Reads(template, Parse(template).value)
    decreases |template|
  {
    if template != "" {
      var c := template[0];
      if IsBrace(c) && |template| > 1 && template[1] == c {
        ParsedIsRead(template[2..]);
        ConsLaws(Literal(c), Parse(template[2..]));
      } else if c == '{' {
        var close := IndexOf(template, '}');
        if close < |template| {
          ParsedIsRead(template[close + 1..]);
          ConsLaws(Name(template[1..close]), Parse(template[close + 1..]));
          assert forall i :: 1 <= i < close ==> template[..close][i] == template[i];
        }
      } else {
        ParsedIsRead(template[1..]);
        ConsLaws(Literal(c), Parse(template[1..]));
      }
    }
  }

  lemma {:induction false} ReadIsParsed(template: string, pieces: seq<Piece>)
    requires Reads(template, pieces)
    ensures Parse(template) == Some(pieces)
    decreases |pieces|
  {
    if pieces != [] {
      assert pieces == [pieces[0]] + pieces[1..];
      match pieces[0]
      case Literal(c) =>
        if c == '{' {
          assert template[0] == template[..2][0] && template[1] == template[..2][1];
          ReadIsParsed(template[2..], pieces[1..]);
        } else if c == '}' && |template| >= 2 && template[1] == '}' {
          ReadIsParsed(template[2..], pieces[1..]);
        } else {
          ReadIsParsed(template[1..], pieces[1..]);
        }
      case Name(name) =>
        ReadIsParsed(template[|name| + 2..], pieces[1..]);
        CloseAt(template, |name|);
    }
  }

  /** The pieces found are the only ones the template spells; it is refused when it spells none. */
  lemma ParseIffReads(template: string)
    ensures forall pieces :: Parse(template) == Some(pieces) <==> Reads(template, pieces)
  {
    ParsedIsRead(template);
    forall pieces | Reads(template, pieces) ensures Parse(template) == Some(pieces) {
      ReadIsParsed(template, pieces);
    }
  }

  /** Whatever is written down canonically is read back piece by piece. */
  lemma {:induction false} PrintThenParse(pieces: seq<Piece>)
    requires forall piece <- pieces :: WellFormed(piece)
    ensures Parse(Print(pieces)) == Some(pieces)
  {
    if pieces != [] {
      PrintThenParse(pieces[1..]);
      var rest := Print(pieces[1..]);
      assert pieces == [pieces[0]] + pieces[1..] && WellFormed(pieces[0]);
      match pieces[0]
      case Literal(c) =>
        if IsBrace(c) {
          assert Print(pieces)[2..] == rest;
        } else {
          assert Print(pieces)[1..] == rest;
        }
      case Name(name) =>
        var text := Print(pieces);
        assert text == "{" + name + "}" + rest;
        assert text[1..|name| + 1] == name && text[|name| + 2..] == rest;
        assert text[1] == if name == "" then '}' else name[0];
        CloseAt(text, |name|);
    }
  }

  /** Reading a template and writing it down canonically leaves its meaning alone. */
  lemma Canonical(template: string, context: Context)
    requires Parse(template).Some?
    ensures Filled(Print(Parse(template).value), context) == Filled(template, context)
    ensures Listed(Print(Parse(template).value)) == Listed(template)
  {
    ParseYieldsWellFormed(template);
    PrintThenParse(Parse(template).value);
  }

  /** Pieces are filled in one after the other. */
  lemma {:induction false} RenderInOrder(one: seq<Piece>, two: seq<Piece>, context: Context)
    ensures Render(one + two, context) ==
            if Render(one, context).Some? then Prepend(Render(one, context).value, Render(two, context)) else None
  {
    if one == [] {
      assert one + two == two;
      PrependNothing(Render(two, context));
    } else {
      RenderInOrder(one[1..], two, context);
      RenderCons(one[0], one[1..], context);
      RenderCons(one[0], one[1..] + two, context);
      assert one == [one[0]] + one[1..] && one + two == [one[0]] + (one[1..] + two);
      if Shows(one[0], context).Some? && Render(one[1..], context).Some? {
        PrependTwice(Shows(one[0], context).value, Render(one[1..], context).value, Render(two, context));
      }
    }
  }

  function Shows(piece: Piece, context: Context): Option<string> {
    match piece
    case Literal(c) => Some([c])
    case Name(name) => Lookup(context, name)
  }

  lemma RenderCons(piece: Piece, rest: seq<Piece>, context: Context)
    ensures Render([piece] + rest, context) ==
            if Shows(piece, context).Some? then Prepend(Shows(piece, context).value, Render(rest, context)) else None
  {
    assert ([piece] + rest)[1..] == rest;
  }

  lemma {:induction false} NamesInOrder(one: seq<Piece>, two: seq<Piece>)
    ensures Names(one + two) == Names(one) + Names(two)
  {
    if one == [] {
      assert one + two == two;
    } else {
      NamesInOrder(one[1..], two);
      assert (one + two)[1..] == one[1..] + two;
      ConcatAssociates(if one[0].Name? then [one[0].name] else [], Names(one[1..]), Names(two));
    }
  }

  /** A character fills in as itself; a name as its text, its number's digits, or `true` or `false`, and as nothing else. */
  lemma RenderOne(c: char, name: string, context: Context)
    ensures Render([Literal(c)], context) == Some([c])
    ensures Render([Name(name)], context) ==
            if name !in context then None
            else match context[name]
              case Text(text) => Some(text)
              case Number(digits) => Some(digits)
              case Flag(on) => Some(if on then "true" else "false")
              case Compound => None
    ensures Names([Literal(c)]) == [] && Names([Name(name)]) == [name]
  {
    assert [Literal(c)][1..] == [] && [Name(name)][1..] == [];
    assert Render([], context) == Some("") && [c] + "" == [c];
    if Lookup(context, name).Some? {
      assert Lookup(context, name).value + "" == Lookup(context, name).value;
    }
  }

  /** A template that is a name alone is filled in with that name's value. */
  lemma FillingAName(name: string, context: Context)
    requires WellFormed(Name(name))
    ensures Listed("{" + name + "}") == Some([name])
    ensures Filled("{" + name + "}", context) ==
            if name !in context then None
            else match context[name]
              case Text(text) => Some(text)
              case Number(digits) => Some(digits)
              case Flag(on) => Some(if on then "true" else "false")
              case Compound => None
  {
    assert [Name(name)][1..] == [] && Print([]) == "";
    assert Print([Name(name)]) == "{" + name + "}";
    PrintThenParse([Name(name)]);
    RenderOne(' ', name, context);
  }

  lemma {:induction false} RenderNeedsTheNames(pieces: seq<Piece>, context: Context)
    ensures Render(pieces, context).Some? <==> forall name <- Names(pieces) :: Lookup(context, name).Some?
  {
    if pieces != [] {
      RenderNeedsTheNames(pieces[1..], context);
      if pieces[0].Name? {
        assert Names(pieces)[0] == pieces[0].name;
        forall name <- Names(pieces[1..]) ensures name in Names(pieces) {
        }
      }
    }
  }

  /** A text can be filled in exactly when it passes the check and every name it uses has a scalar value. */
  lemma ScannersAgree(template: string, context: Context)
    ensures Filled(template, context).Some? <==>
            Listed(template).Some? && forall name <- Listed(template).value :: Lookup(context, name).Some?
  {
    if Parse(template).Some? {
      RenderNeedsTheNames(Parse(template).value, context);
    }
  }

  lemma {:induction false} RenderReadsTheNames(pieces: seq<Piece>, one: Context, two: Context)
    requires forall name <- Names(pieces) :: Lookup(one, name) == Lookup(two, name)
    ensures Render(pieces, one) == Render(pieces, two)
  {
    if pieces != [] {
      forall name <- Names(pieces[1..]) ensures Lookup(one, name) == Lookup(two, name) {
        assert name in Names(pieces);
      }
      RenderReadsTheNames(pieces[1..], one, two);
      if pieces[0].Name? {
        assert Names(pieces)[0] == pieces[0].name;
      }
    }
  }

  /** The values of names that are not listed make no difference. */
  lemma OnlyListedNamesMatter(template: string, one: Context, two: Context)
    requires Listed(template).Some? ==> forall name <- Listed(template).value :: Lookup(one, name) == Lookup(two, name)
    ensures Filled(template, one) == Filled(template, two)
  {
    if Parse(template).Some? {
      RenderReadsTheNames(Parse(template).value, one, two);
    }
  }

  /** `text` with each brace doubled. */
  function Doubled(text: string): string {
    if text == "" then ""
    else (if IsBrace(text[0]) then [text[0], text[0]] else [text[0]]) + Doubled(text[1..])
  }

  function Literals(text: string): seq<Piece> {
    seq(|text|, i requires 0 <= i < |text| => Literal(text[i]))
  }

  lemma {:induction false} DoubledIsPrinted(text: string)
    ensures Doubled(text) == Print(Literals(text))
  {
    if text != "" {
      DoubledIsPrinted(text[1..]);
      assert Literals(text)[1..] == Literals(text[1..]);
    }
  }

  lemma {:induction false} LiteralsRenderAsThemselves(text: string, context: Context)
    ensures Render(Literals(text), context) == Some(text)
    ensures Names(Literals(text)) == []
  {
    if text != "" {
      LiteralsRenderAsThemselves(text[1..], context);
      assert Literals(text)[1..] == Literals(text[1..]);
      assert text == [text[0]] + text[1..];
    }
  }

  /** Doubling the braces of any text and filling it in gives the text back. */
  lemma DoublingEscapes(text: string, context: Context)
    ensures Filled(Doubled(text), context) == Some(text)
    ensures Listed(Doubled(text)) == Some([])
  {
    DoubledIsPrinted(text);
    PrintThenParse(Literals(text));
    LiteralsRenderAsThemselves(text, context);
  }
}
