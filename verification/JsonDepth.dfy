/** How deeply JSON text nests, measured in one pass over its characters. */
module JsonDepth {

  /** A string's content: a character as it is, or a backslash and the next. */
  datatype Piece = Plain(c: char) | Escape(c: char)

  /** JSON as a serializer writes it; `word` is a number, a boolean or null. */
  datatype Json =
    | Word(word: string)
    | Str(pieces: seq<Piece>)
    | Array(items: seq<Json>)
    | Object(fields: seq<Field>)

  datatype Field = Field(key: seq<Piece>, value: Json)

  /** Words hold no quote or bracket, and plain characters no quote or
      backslash. */
  ghost predicate WellWritten(v: Json) {
    match v
    case Word(word) => forall i | 0 <= i < |word| :: Quiet(word[i])
    case Str(pieces) => AllPlain(pieces)
    case Array(items) => forall i | 0 <= i < |items| :: WellWritten(items[i])
    case Object(fields) => forall i | 0 <= i < |fields| :: FieldWritten(fields[i])
  }

  ghost predicate FieldWritten(f: Field) {
    AllPlain(f.key) && WellWritten(f.value)
  }

  predicate Quiet(c: char) {
    c != '"' && c != '[' && c != '{' && c != ']' && c != '}'
  }

  ghost predicate AllPlain(pieces: seq<Piece>) {
    forall i | 0 <= i < |pieces| :: pieces[i].Plain? ==> pieces[i].c != '"' && pieces[i].c != '\\'
  }

  function PieceText(p: Piece): string {
    if p.Plain? then [p.c] else ['\\', p.c]
  }

  function PiecesText(pieces: seq<Piece>): string {
    if pieces == [] then "" else PieceText(pieces[0]) + PiecesText(pieces[1..])
  }

  function Quoted(pieces: seq<Piece>): string {
    ['"'] + PiecesText(pieces) + ['"']
  }

  function Text(v: Json): string
    decreases v, 1
  {
    match v
    case Word(word) => word
    case Str(pieces) => Quoted(pieces)
    case Array(items) => "[" + ItemsText(items) + "]"
    case Object(fields) => "{" + FieldsText(fields) + "}"
  }

  function ItemsText(items: seq<Json>): string
    decreases items, 0
  {
    if items == [] then "" else Text(items[0]) + (if |items| == 1 then "" else ",") + ItemsText(items[1..])
  }

  function FieldsText(fields: seq<Field>): string
    decreases fields, 0
  {
    if fields == [] then ""
    else FieldText(fields[0]) + (if |fields| == 1 then "" else ",") + FieldsText(fields[1..])
  }

  function FieldText(f: Field): string
    decreases f, 2
  {
    Quoted(f.key) + ":" + Text(f.value)
  }

  function Max(a: nat, b: nat): nat {
    if a >= b then a else b
  }

  /** Arrays and objects around the deepest value. */
  function Depth(v: Json): nat
    decreases v, 1
  {
    match v
    case Word(_) => 0
    case Str(_) => 0
    case Array(items) => 1 + ItemsDepth(items)
    case Object(fields) => 1 + FieldsDepth(fields)
  }

  function ItemsDepth(items: seq<Json>): nat
    decreases items, 0
  {
    if items == [] then 0 else Max(Depth(items[0]), ItemsDepth(items[1..]))
  }

  function FieldsDepth(fields: seq<Field>): nat
    decreases fields, 0
  {
    if fields == [] then 0 else Max(Depth(fields[0].value), FieldsDepth(fields[1..]))
  }

  datatype State = State(depth: nat, deepest: nat, inString: bool, escaped: bool)

  function Step(s: State, c: char): State {
    if s.inString then
      if s.escaped then s.(escaped := false)
      else if c == '\\' then s.(escaped := true)
      else if c == '"' then s.(inString := false)
      else s
    else if c == '"' then s.(inString := true)
    else if c == '[' || c == '{' then s.(depth := s.depth + 1, deepest := Max(s.deepest, s.depth + 1))
    else if c == ']' || c == '}' then s.(depth := if s.depth > 0 then s.depth - 1 else 0)
    else s
  }

  function Run(s: State, text: string): State
    decreases |text|
  {
    if text == "" then s else Run(Step(s, text[0]), text[1..])
  }

  lemma {:induction false} RunJoined(s: State, a: string, b: string)
    ensures Run(s, a + b) == Run(Run(s, a), b)
    decreases |a|
  {
    if a == "" {
      assert a + b == b;
    } else {
      assert (a + b)[1..] == a[1..] + b;
      RunJoined(Step(s, a[0]), a[1..], b);
    }
  }

  lemma {:induction false} QuietRun(s: State, word: string)
    requires !s.inString && forall i | 0 <= i < |word| :: Quiet(word[i])
    ensures Run(s, word) == s
  {
    if word != "" {
      QuietRun(s, word[1..]);
    }
  }

  lemma {:induction false} PiecesRun(s: State, pieces: seq<Piece>)
    requires s.inString && !s.escaped && AllPlain(pieces)
    ensures Run(s, PiecesText(pieces)) == s
  {
    if pieces != [] {
      var p := pieces[0];
      RunJoined(s, PieceText(p), PiecesText(pieces[1..]));
      if p.Escape? {
        assert PieceText(p)[1..] == [p.c];
        assert Run(s, PieceText(p)) == Run(Step(s, '\\'), [p.c]);
        OneChar(Step(s, '\\'), p.c);
      } else {
        OneChar(s, p.c);
      }
      PiecesRun(s, pieces[1..]);
    }
  }

  lemma OneChar(s: State, c: char)
    ensures Run(s, [c]) == Step(s, c)
  {
    assert [c][1..] == "";
  }

  /** Whatever is inside quotes counts for nothing. */
  lemma QuotedRun(s: State, pieces: seq<Piece>)
    requires !s.inString && !s.escaped && AllPlain(pieces)
    ensures Run(s, Quoted(pieces)) == s
  {
    var inside := s.(inString := true);
    OneChar(s, '"');
    OneChar(inside, '"');
    RunJoined(s, ['"'], PiecesText(pieces));
    PiecesRun(inside, pieces);
    RunJoined(s, ['"'] + PiecesText(pieces), ['"']);
  }

  function Deeper(s: State, depth: nat): State {
    s.(deepest := Max(s.deepest, s.depth + depth))
  }

  /** A value leaves the pass at the depth it found, having seen its own depth. */
  lemma {:induction false} ValueRun(s: State, v: Json)
    requires !s.inString && !s.escaped && WellWritten(v) && s.depth <= s.deepest
    ensures Run(s, Text(v)) == Deeper(s, Depth(v))
    decreases v, 1
  {
    hide Step, Run, Quoted, Quiet, AllPlain, ItemsText, FieldsText;
    match v
    case Word(word) => QuietRun(s, word);
    case Str(pieces) => QuotedRun(s, pieces);
    case Array(items) =>
      var inner := Open(s);
      ItemsRun(inner, items);
      Bracketed(s, '[', ItemsText(items), ']', ItemsDepth(items));
      assert Text(v) == ['['] + ItemsText(items) + [']'];
    case Object(fields) =>
      var inner := Open(s);
      FieldsRun(inner, fields);
      Bracketed(s, '{', FieldsText(fields), '}', FieldsDepth(fields));
      assert Text(v) == ['{'] + FieldsText(fields) + ['}'];
  }

  function Open(s: State): State {
    s.(depth := s.depth + 1, deepest := Max(s.deepest, s.depth + 1))
  }

  lemma Bracketed(s: State, open: char, body: string, close: char, depth: nat)
    requires !s.inString && (open == '[' || open == '{') && (close == ']' || close == '}')
    requires Run(Open(s), body) == Deeper(Open(s), depth)
    ensures Run(s, [open] + body + [close]) == Deeper(s, 1 + depth)
  {
    hide Run;
    OneChar(s, open);
    RunJoined(s, [open], body);
    RunJoined(s, [open] + body, [close]);
    OneChar(Deeper(Open(s), depth), close);
  }

  lemma {:induction false} ItemsRun(s: State, items: seq<Json>)
    requires !s.inString && !s.escaped && s.depth <= s.deepest
    requires forall i | 0 <= i < |items| :: WellWritten(items[i])
    ensures Run(s, ItemsText(items)) == Deeper(s, ItemsDepth(items))
    decreases items, 0
  {
    hide Step, Text, Depth, WellWritten;
    if items == [] {
    } else {
      ValueRun(s, items[0]);
      var after := Deeper(s, Depth(items[0]));
      ItemsRun(after, items[1..]);
      hide Run;
      Separated(s, Text(items[0]), if |items| == 1 then "" else ",", ItemsText(items[1..]), after);
    }
  }

  lemma {:induction false} FieldsRun(s: State, fields: seq<Field>)
    requires !s.inString && !s.escaped && s.depth <= s.deepest
    requires forall i | 0 <= i < |fields| :: FieldWritten(fields[i])
    ensures Run(s, FieldsText(fields)) == Deeper(s, FieldsDepth(fields))
    decreases fields, 0
  {
    hide Step, Text, Depth, FieldText, FieldWritten;
    if fields == [] {
    } else {
      FieldRun(s, fields[0]);
      var after := Deeper(s, Depth(fields[0].value));
      FieldsRun(after, fields[1..]);
      hide Run;
      Separated(s, FieldText(fields[0]), if |fields| == 1 then "" else ",", FieldsText(fields[1..]), after);
    }
  }

  lemma {:induction false} FieldRun(s: State, f: Field)
    requires !s.inString && !s.escaped && s.depth <= s.deepest && FieldWritten(f)
    ensures Run(s, FieldText(f)) == Deeper(s, Depth(f.value))
    decreases f, 2
  {
    hide Step, Run, Text, Depth, WellWritten, AllPlain, Quoted;
    QuotedRun(s, f.key);
    ValueRun(s, f.value);
    Separated(s, Quoted(f.key), ":", Text(f.value), s);
  }

  lemma Separated(s: State, a: string, mark: string, b: string, after: State)
    requires Run(s, a) == after && !after.inString && (mark == "" || mark == "," || mark == ":")
    ensures Run(s, a + mark + b) == Run(after, b)
  {
    RunJoined(s, a, mark);
    RunJoined(s, a + mark, b);
    QuietRun(after, mark);
  }

  /** The pass measures the text it is given. */
  method Measure(text: string) returns (deepest: nat)
    ensures deepest == Run(State(0, 0, false, false), text).deepest
  {
    var depth: nat, inString, escaped := 0, false, false;
    deepest := 0;
    for i := 0 to |text|
      invariant Run(State(0, 0, false, false), text[..i]) == State(depth, deepest, inString, escaped)
    {
      var c := text[i];
      assert text[..i + 1] == text[..i] + [c];
      RunJoined(State(0, 0, false, false), text[..i], [c]);
      OneChar(State(depth, deepest, inString, escaped), c);
      hide Run;
      if inString {
        if escaped {
          escaped := false;
        } else if c == '\\' {
          escaped := true;
        } else if c == '"' {
          inString := false;
        }
      } else if c == '"' {
        inString := true;
      } else if c == '[' || c == '{' {
        depth := depth + 1;
        deepest := Max(deepest, depth);
      } else if c == ']' || c == '}' {
        depth := if depth > 0 then depth - 1 else 0;
      }
    }
    assert text[..|text|] == text;
  }

  /** On text a serializer wrote, that is the depth of the value. */
  lemma MeasuresDepth(v: Json)
    requires WellWritten(v)
    ensures Run(State(0, 0, false, false), Text(v)).deepest == Depth(v)
  {
    ValueRun(State(0, 0, false, false), v);
    hide Run, Text, Depth, WellWritten;
  }
}
