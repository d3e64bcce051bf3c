// Integer macros in build.rs: `extract_define`.
module CDefines {
  import opened Outcomes
  import opened CText
  import opened CComments
  import opened CIntegers

  const DEFINE := "#define"

  // `str::lines`: newlines end lines, a carriage return before one goes with
  // it, and no empty line follows the last newline.
  function Lines(s: string): seq<string>
    decreases |s|
  {
    if s == [] then []
    else
      match Find(s, '\n')
      case None => [s]
      case Some(i) => [if i > 0 && s[i - 1] == '\r' then s[..i - 1] else s[..i]] + Lines(s[i + 1..])
  }

  // What one line says about `name`: nothing, or the value it is given, which
  // may fail to parse.
  function DefineIn(line: string, name: string): Option<Option<int>> {
    var trimmed := Trim(line);
    if !StartsWith(trimmed, DEFINE) then None
    else
      var rest := TrimStart(trimmed[|DEFINE|..]);
      var end := Span(rest, IsIdent);
      if rest[..end] != name then None else Some(ParseCInteger(TrimStart(rest[end..])))
  }

  // The first line that defines `name` decides, even when its value does not
  // parse.
  function FirstDefine(lines: seq<string>, name: string): Option<int> {
    if lines == [] then None
    else
      match DefineIn(lines[0], name)
      case None => FirstDefine(lines[1..], name)
      case Some(value) => value
  }

  method ExtractDefine(src: string, name: string) returns (value: Option<int>)
    ensures value == FirstDefine(Lines(Strip(src)), name)
  {
    var text := StripComments(src);
    var lines := Lines(text);
    for k := 0 to |lines|
      invariant FirstDefine(lines[k..], name) == FirstDefine(lines, name)
    {
      assert lines[k..][1..] == lines[k + 1..];
      var trimmed := Trim(lines[k]);
      if !StartsWith(trimmed, DEFINE) {
        continue;
      }
      var rest := TrimStart(trimmed[|DEFINE|..]);
      var end := Span(rest, IsIdent);
      if rest[..end] != name {
        continue;
      }
      return ParseCInteger(TrimStart(rest[end..]));
    }
    return None;
  }

  /* Which lines define a macro */

  predicate IsMacroName(name: string) {
    name != [] && All(name, IsIdent)
  }

  // How a line defines a macro: padding, the directive, a gap, the name, and
  // whatever follows it.
  datatype Writing = Writing(left: string, gap: string, tail: string)

  predicate Writes(w: Writing, line: string, name: string) {
    && All(w.left, IsBlank) && All(w.gap, IsBlank) && (w.tail == [] || !IsIdent(w.tail[0]))
    && line == w.left + ("#define" + (w.gap + (name + w.tail)))
  }

  ghost predicate Silent(line: string, name: string) {
    forall w: Writing :: !Writes(w, line, name)
  }

  lemma {:induction false} TrimEndAfter(body: string, tail: string)
    requires body != [] && !IsBlank(body[|body| - 1])
    ensures TrimEnd(body + tail, IsBlank) == body + TrimEnd(tail, IsBlank)
  {
    var pad := TrimEndCuts(tail, IsBlank);
    var core := body + TrimEnd(tail, IsBlank);
    assert body + tail == core + pad;
    assert TrimEnd(tail, IsBlank) != [] ==> core[|core| - 1] == TrimEnd(tail, IsBlank)[|TrimEnd(tail, IsBlank)| - 1];
    TrimEndOf(core, pad, IsBlank);
  }

  // Trimming the end first, or the start again, makes no difference to a value.
  lemma {:induction false} SameValue(tail: string)
    ensures ParseCInteger(TrimStart(TrimEnd(tail, IsBlank))) == ParseCInteger(tail)
  {
    var left, right := TrimCuts(tail);
    var core := Trim(tail);
    assert [] + core + [] == core;
    TrimOf([], core, []);
    if core == [] {
      assert tail == [] + (left + right) && forall i :: 0 <= i < |tail| ==> IsBlank(tail[i]);
      TrimEndOf([], left + right, IsBlank);
      assert [] + (left + right) == tail;
    } else {
      assert (left + core)[|left + core| - 1] == core[|core| - 1];
      TrimEndOf(left + core, right, IsBlank);
      TrimStartOf(left, core);
    }
  }

  // What the line says is read off its writing.
  lemma {:induction false} TrimmedLine(w: Writing, line: string, name: string)
    requires IsMacroName(name) && Writes(w, line, name)
    ensures var tail := TrimEnd(w.tail, IsBlank);
      && Trim(line) == "#define" + (w.gap + (name + tail)) && (tail == [] || !IsIdent(tail[0]))
      && name != [] && !IsBlank(name[0]) && All(name, IsIdent)
  {
    assert IsIdent(name[0]) && IsIdent(name[|name| - 1]);
    var body := "#define" + (w.gap + name);
    assert "#define" + (w.gap + (name + w.tail)) == body + w.tail;
    assert body[|body| - 1] == name[|name| - 1] && (body + w.tail)[0] == '#';
    TrimStartOf(w.left, body + w.tail);
    TrimEndAfter(body, w.tail);
    var pad := TrimEndCuts(w.tail, IsBlank);
    assert body + TrimEnd(w.tail, IsBlank) == "#define" + (w.gap + (name + TrimEnd(w.tail, IsBlank)));
  }

  lemma {:induction false} WritingIsRead(w: Writing, line: string, other: string, name: string)
    requires IsMacroName(other) && Writes(w, line, other)
    ensures DefineIn(line, name) == if other == name then Some(ParseCInteger(w.tail)) else None
  {
    hide Trim, TrimStart, TrimEnd, Span, All, ParseCInteger, Writes, IsMacroName;
    TrimmedLine(w, line, other);
    var tail := TrimEnd(w.tail, IsBlank);
    var rest := w.gap + (other + tail);
    assert Trim(line)[..|DEFINE|] == DEFINE && Trim(line)[|DEFINE|..] == rest;
    assert All(w.gap, IsBlank) by { WritingPads(w, line, other); }
    TrimStartOf(w.gap, other + tail);
    SpanOf(other, tail, IsIdent);
    assert (other + tail)[..|other|] == other && (other + tail)[|other|..] == tail;
    SameValue(w.tail);
  }

  lemma WritingPads(w: Writing, line: string, name: string)
    requires Writes(w, line, name)
    ensures All(w.gap, IsBlank) && All(w.left, IsBlank)
  {
  }

  lemma {:induction false} ReadIsWriting(line: string, name: string) returns (w: Writing)
    requires IsMacroName(name) && DefineIn(line, name).Some?
    ensures Writes(w, line, name)
  {
    hide Trim, TrimStart, Span, ParseCInteger;
    var left, right := TrimCuts(line);
    var trimmed := Trim(line);
    var gap := TrimStartCuts(trimmed[|DEFINE|..]);
    var rest := TrimStart(trimmed[|DEFINE|..]);
    var end := Span(rest, IsIdent);
    w := Writing(left, gap, rest[end..] + right);
    assert trimmed == "#define" + (gap + (name + rest[end..]));
    assert right != [] ==> IsBlank(right[0]);
  }

  // A line is silent about a macro exactly when it is no writing of it.
  lemma {:induction false} SilentExactly(line: string, name: string)
    requires IsMacroName(name)
    ensures DefineIn(line, name) == None <==> Silent(line, name)
  {
    hide DefineIn, Writes;
    if DefineIn(line, name).Some? {
      var w := ReadIsWriting(line, name);
    }
    if w :| Writes(w, line, name) {
      WritingIsRead(w, line, name, name);
    }
  }

  // A line for any other macro is silent, whether or not one name starts with
  // the other.
  lemma {:induction false} OtherMacroIsSilent(w: Writing, line: string, other: string, name: string)
    requires IsMacroName(other) && IsMacroName(name) && other != name && Writes(w, line, other)
    ensures Silent(line, name)
  {
    hide DefineIn, Writes;
    WritingIsRead(w, line, other, name);
    SilentExactly(line, name);
  }

  // So is a line that has something else than the directive after its padding.
  lemma {:induction false} NoDirectiveIsSilent(pad: string, rest: string, name: string)
    requires All(pad, IsBlank) && (rest == [] || !IsBlank(rest[0])) && !("#define" <= rest)
    ensures Silent(pad + rest, name)
  {
    forall w: Writing
      ensures !Writes(w, pad + rest, name)
    {
      if Writes(w, pad + rest, name) {
        TrimStartOf(pad, rest);
        TrimStartOf(w.left, "#define" + (w.gap + (name + w.tail)));
        assert false;
      }
    }
  }

  /* Writing a macro and reading it back */

  function DefineLine(left: string, gap: string, name: string, gap2: string, l: Literal, right: string): string
    requires ValidLiteral(l)
  {
    left + ("#define" + (gap + (name + (gap2 + LiteralText(l) + right))))
  }

  lemma {:induction false} ReadDefine(left: string, gap: string, name: string, gap2: string, l: Literal, right: string)
      returns (w: Writing)
    requires ValidLiteral(l) && IsMacroName(name)
    requires All(left, IsBlank) && All(gap, IsBlank) && All(gap2, IsBlank) && gap2 != [] && All(right, IsBlank)
    ensures Writes(w, DefineLine(left, gap, name, gap2, l, right), name) && ParseCInteger(w.tail) == Some(l.value)
    ensures DefineIn(DefineLine(left, gap, name, gap2, l, right), name) == Some(Some(l.value))
  {
    hide LiteralText, ParseCInteger, DefineIn;
    w := Writing(left, gap, gap2 + LiteralText(l) + right);
    assert w.tail[0] == gap2[0] && IsBlank(gap2[0]);
    ParseLiteral(gap2, l, right);
    WritingIsRead(w, DefineLine(left, gap, name, gap2, l, right), name, name);
  }

  /* Files */

  // A line and how it ends; only a line that ends in a carriage return and a
  // newline may end in a carriage return of its own.
  datatype Line = Line(text: string, crlf: bool)

  predicate IsLine(l: Line) {
    '\n' !in l.text && (l.crlf || l.text == [] || l.text[|l.text| - 1] != '\r')
  }

  // The last line may go without an end.
  function FileText(lines: seq<Line>, last: string): string {
    if lines == [] then last
    else lines[0].text + (if lines[0].crlf then "\r\n" else "\n") + FileText(lines[1..], last)
  }

  function Texts(lines: seq<Line>, last: string): seq<string> {
    if lines == [] then if last == [] then [] else [last]
    else [lines[0].text] + Texts(lines[1..], last)
  }

  lemma {:induction false} LinesOf(lines: seq<Line>, last: string)
    requires (forall l :: l in lines ==> IsLine(l)) && '\n' !in last
    ensures Lines(FileText(lines, last)) == Texts(lines, last)
  {
    if lines == [] {
      NoNewline(last);
    } else {
      assert lines[0] in lines && IsLine(lines[0]);
      var l, rest := lines[0], FileText(lines[1..], last);
      LineTaken(l, rest);
      assert l.text + (if l.crlf then "\r\n" else "\n") + rest == FileText(lines, last);
      LinesOf(lines[1..], last);
    }
  }

  // Every text is made of such lines, so its lines are known.
  lemma EveryTextHasLines(s: string) returns (lines: seq<Line>, last: string)
    ensures (forall l :: l in lines ==> IsLine(l)) && '\n' !in last
    ensures FileText(lines, last) == s && Lines(s) == Texts(lines, last)
  {
    hide IsLine, Lines, Texts;
    lines, last := CutIntoLines(s);
    LinesOf(lines, last);
  }

  lemma {:induction false} CutIntoLines(s: string) returns (lines: seq<Line>, last: string)
    ensures (forall l :: l in lines ==> IsLine(l)) && '\n' !in last && FileText(lines, last) == s
    decreases |s|
  {
    hide IsLine, Find;
    lines, last := [], s;
    match Find(s, '\n')
    case None =>
    case Some(i) =>
      var l := FirstLine(s, i);
      var rest: seq<Line>;
      rest, last := CutIntoLines(s[i + 1..]);
      lines := [l] + rest;
      assert lines[1..] == rest;
  }

  lemma FirstLine(s: string, i: nat) returns (l: Line)
    requires i < |s| && s[i] == '\n' && '\n' !in s[..i]
    ensures IsLine(l) && s == l.text + (if l.crlf then "\r\n" else "\n") + s[i + 1..]
  {
    var crlf := i > 0 && s[i - 1] == '\r';
    l := Line.Line(if crlf then s[..i - 1] else s[..i], crlf);
    if crlf {
      assert s[..i] == s[..i - 1] + "\r";
      assert s == s[..i - 1] + "\r\n" + s[i + 1..];
    } else {
      assert s == s[..i] + "\n" + s[i + 1..];
    }
  }

  lemma NoNewline(s: string)
    requires '\n' !in s
    ensures Lines(s) == if s == [] then [] else [s]
  {
    assert Find(s, '\n') == None;
  }

  lemma {:induction false} UpToNewline(body: string, rest: string)
    requires '\n' !in body
    ensures Lines(body + ['\n'] + rest) ==
      [if body != [] && body[|body| - 1] == '\r' then body[..|body| - 1] else body] + Lines(rest)
  {
    hide Find;
    var s := body + ['\n'] + rest;
    FindOf(body, '\n', rest);
    assert s[..|body|] == body && s[|body| + 1..] == rest;
    assert body != [] ==> s[|body| - 1] == body[|body| - 1] && s[..|body| - 1] == body[..|body| - 1];
  }

  lemma {:induction false} LineTaken(l: Line, rest: string)
    requires IsLine(l)
    ensures Lines(l.text + (if l.crlf then "\r\n" else "\n") + rest) == [l.text] + Lines(rest)
  {
    hide Lines;
    if l.crlf {
      var body := l.text + "\r";
      UpToNewline(body, rest);
      assert body[..|body| - 1] == l.text && l.text + "\r\n" + rest == body + ['\n'] + rest;
    } else {
      UpToNewline(l.text, rest);
      assert l.text + "\n" + rest == l.text + ['\n'] + rest;
    }
  }

  // The first line that defines the macro decides, even when its value is not
  // an integer.
  lemma {:induction false} FirstDefineAfter(
      before: seq<string>, line: string, after: seq<string>, name: string, w: Writing)
    requires IsMacroName(name) && (forall s :: s in before ==> Silent(s, name)) && Writes(w, line, name)
    ensures FirstDefine(before + [line] + after, name) == ParseCInteger(w.tail)
  {
    hide DefineIn, Silent, Writes, IsMacroName;
    var all := before + [line] + after;
    if before == [] {
      assert all[0] == line;
      WritingIsRead(w, line, name, name);
    } else {
      assert before[0] in before && all[0] == before[0] && all[1..] == before[1..] + [line] + after;
      SilentExactly(before[0], name);
      FirstDefineAfter(before[1..], line, after, name, w);
    }
  }

  // And without such a line there is no value.
  lemma {:induction false} NoDefine(lines: seq<string>, name: string)
    requires IsMacroName(name) && forall s :: s in lines ==> Silent(s, name)
    ensures FirstDefine(lines, name) == None
  {
    hide DefineIn, Silent, IsMacroName;
    if lines != [] {
      assert lines[0] in lines;
      SilentExactly(lines[0], name);
      NoDefine(lines[1..], name);
    }
  }

  // A macro written anywhere in a file, with any spacing, line ends, comments and
  // later definitions, is read with its value, provided no earlier line is a
  // writing of it.
  lemma {:induction false} DefineRoundTrip(
      pieces: seq<Piece>, lines: seq<Line>, last: string, k: nat,
      left: string, gap: string, name: string, gap2: string, l: Literal, right: string)
    requires ValidLiteral(l) && IsMacroName(name)
    requires All(left, IsBlank) && All(gap, IsBlank) && All(gap2, IsBlank) && gap2 != [] && All(right, IsBlank)
    requires (forall l :: l in lines ==> IsLine(l)) && '\n' !in last
    requires var texts := Texts(lines, last);
      && k < |texts| && texts[k] == DefineLine(left, gap, name, gap2, l, right)
      && forall i :: 0 <= i < k ==> Silent(texts[i], name)
    requires WellSpelled(pieces) && Plain(pieces) == FileText(lines, last)
    ensures FirstDefine(Lines(Strip(Decorated(pieces))), name) == Some(l.value)
  {
    hide DefineIn, Silent, Writes, DefineLine, Texts, FileText, Lines, Strip;
    var texts := Texts(lines, last);
    StripRemovesComments(pieces);
    LinesOf(lines, last);
    var w := ReadDefine(left, gap, name, gap2, l, right);
    FirstDefineAfter(texts[..k], texts[k], texts[k + 1..], name, w);
    assert texts[..k] + [texts[k]] + texts[k + 1..] == texts;
  }
}
