// Comment removal in build.rs: `strip_comments` and `declarations_of`.
module CComments {
  import opened Outcomes
  import opened CText

  /* What stripping leaves */

  predicate OpensLine(s: string) { |s| >= 2 && s[0] == '/' && s[1] == '/' }

  predicate OpensBlock(s: string) { |s| >= 2 && s[0] == '/' && s[1] == '*' }

  predicate ClosesBlock(s: string) { |s| >= 2 && s[0] == '*' && s[1] == '/' }

  predicate IsInLine(c: char) { c != '\n' }

  // How far past its start a block comment reaches: through its closing pair,
  // or up to the last character when there is none.
  function BlockRest(s: string): (n: nat)
    ensures n <= |s|
  {
    if |s| < 2 then 0
    else if ClosesBlock(s) then 2
    else 1 + BlockRest(s[1..])
  }

  function Strip(s: string): string
    decreases |s|
  {
    if s == [] then []
    else if OpensLine(s) then
      var n := Span(s, IsInLine);
      assert s[..2][0] == '/' && n > 0;
      Strip(s[n..])
    else if OpensBlock(s) then Strip(s[2..][BlockRest(s[2..])..])
    else [s[0]] + Strip(s[1..])
  }

  /* The loop */

  // The loop over a line comment.
  method SkipLine(src: string, from: nat) returns (i: nat)
    requires from <= |src|
    ensures from <= i <= |src| && i - from == Span(src[from..], IsInLine)
  {
    i := from;
    while i < |src| && src[i] != '\n'
      invariant from <= i <= |src|
      invariant forall k :: from <= k < i ==> src[k] != '\n'
    {
      i := i + 1;
    }
    assert src[from..] == src[from..i] + src[i..];
    SpanOf(src[from..i], src[i..], IsInLine);
  }

  // The loop over the rest of a block comment.
  method SkipBlock(src: string, from: nat) returns (i: nat)
    requires from <= |src|
    ensures from <= i <= |src| && i - from == BlockRest(src[from..])
  {
    i := from;
    while i + 1 < |src| && !(src[i] == '*' && src[i + 1] == '/')
      invariant from <= i <= |src|
      invariant i - from + BlockRest(src[i..]) == BlockRest(src[from..])
    {
      assert src[i..][1..] == src[i + 1..];
      i := i + 1;
    }
    if i + 1 < |src| {
      i := i + 2;
    }
  }

  // What one turn of the loop does to the rest of the text.
  lemma {:induction false} TurnStrips(src: string, from: nat, i: nat)
    requires from < i <= |src|
    requires
      var s := src[from..];
      if OpensLine(s) then i - from == Span(s, IsInLine)
      else if OpensBlock(s) then i - (from + 2) == BlockRest(src[from + 2..])
      else i == from + 1
    ensures Strip(src[from..]) ==
      (if OpensLine(src[from..]) || OpensBlock(src[from..]) then [] else [src[from]]) + Strip(src[i..])
  {
    hide Span, BlockRest;
    var s := src[from..];
    SliceOfSlice(src, from, i, i);
    assert [] + Strip(src[i..]) == Strip(src[i..]);
    if !OpensLine(s) && OpensBlock(s) {
      SliceOfSlice(src, from, from + 2, from + 2);
      SliceOfSlice(src, from + 2, i, i);
    }
  }

  method StripComments(src: string) returns (out: string)
    ensures out == Strip(src)
  {
    hide Strip, Span, BlockRest;
    out := [];
    var i := 0;
    assert src[0..] == src && [] + Strip(src) == Strip(src);
    while i < |src|
      invariant 0 <= i <= |src|
      invariant out + Strip(src[i..]) == Strip(src)
    {
      var from := i;
      if i + 1 < |src| && src[i] == '/' && src[i + 1] == '/' {
        LineIsLonger(src[from..]);
        i := SkipLine(src, i);
        TurnStrips(src, from, i);
        Joined(out, [], Strip(src[i..]));
      } else if i + 1 < |src| && src[i] == '/' && src[i + 1] == '*' {
        i := SkipBlock(src, i + 2);
        TurnStrips(src, from, i);
        Joined(out, [], Strip(src[i..]));
      } else {
        TurnStrips(src, from, i + 1);
        Joined(out, [src[i]], Strip(src[i + 1..]));
        out := out + [src[i]];
        i := i + 1;
      }
    }
    NothingToStrip(src[i..]);
  }

  lemma Joined(a: string, b: string, c: string)
    ensures (a + b) + c == a + (b + c) && a + [] == a
  {
  }

  lemma LineIsLonger(s: string)
    requires OpensLine(s)
    ensures Span(s, IsInLine) > 0
  {
  }

  lemma NothingToStrip(s: string)
    requires s == []
    ensures Strip(s) == []
  {
  }

  /* No opener is left */

  predicate NoOpener(s: string) {
    forall i :: 0 <= i < |s| ==> !OpensLine(s[i..]) && !OpensBlock(s[i..])
  }

  lemma NoOpenerTail(s: string)
    requires s != [] && NoOpener(s)
    ensures NoOpener(s[1..])
  {
    forall i | 0 <= i < |s[1..]|
      ensures !OpensLine(s[1..][i..]) && !OpensBlock(s[1..][i..])
    {
      assert s[1..][i..] == s[i + 1..];
    }
  }

  lemma {:induction false} NoOpenerCons(c: char, t: string)
    requires NoOpener(t) && (c == '/' && t != [] ==> t[0] != '/' && t[0] != '*')
    ensures NoOpener([c] + t)
  {
    forall i | 0 <= i < |[c] + t|
      ensures !OpensLine(([c] + t)[i..]) && !OpensBlock(([c] + t)[i..])
    {
      if i > 0 { assert ([c] + t)[i..] == t[i - 1..]; }
    }
  }

  // Stripping keeps the first character unless a comment starts there.
  lemma StripHead(s: string)
    requires s != [] && !OpensLine(s) && !OpensBlock(s)
    ensures Strip(s) == [s[0]] + Strip(s[1..])
  {
  }

  lemma {:induction false} StripLeavesNoOpener(s: string)
    ensures NoOpener(Strip(s))
    decreases |s|
  {
    if s == [] {
    } else if OpensLine(s) {
      var n := Span(s, IsInLine);
      assert s[..2][0] == '/' && n > 0;
      StripLeavesNoOpener(s[n..]);
    } else if OpensBlock(s) {
      StripLeavesNoOpener(s[2..][BlockRest(s[2..])..]);
    } else {
      StripLeavesNoOpener(s[1..]);
      if s[0] == '/' && |s| > 1 { StripHead(s[1..]); }
      NoOpenerCons(s[0], Strip(s[1..]));
    }
  }

  lemma {:induction false} StripIsIdentity(s: string)
    requires NoOpener(s)
    ensures Strip(s) == s
  {
    if s != [] {
      assert s[0..] == s;
      NoOpenerTail(s);
      StripIsIdentity(s[1..]);
    }
  }

  // Text is left alone exactly when it holds no comment opener.
  lemma {:induction false} UnchangedIffNoOpener(s: string)
    ensures Strip(s) == s <==> NoOpener(s)
  {
    StripLeavesNoOpener(s);
    if NoOpener(s) { StripIsIdentity(s); }
  }

  lemma {:induction false} StripIsIdempotent(s: string)
    ensures Strip(Strip(s)) == Strip(s)
  {
    StripLeavesNoOpener(s);
    StripIsIdentity(Strip(s));
  }

  // A block comment that never closes swallows everything but its last
  // character, which stays in the output.
  lemma {:induction false} UnterminatedBlockLeaks(text: string)
    requires NoClose(text)
    ensures Strip("/*" + text) == if text == [] then [] else [text[|text| - 1]]
  {
    var s := "/*" + text;
    assert s[2..] == text;
    UnterminatedRest(text);
    var rest := text[BlockRest(text)..];
    assert Strip(s) == Strip(rest);
    if text != [] {
      assert rest == [text[|text| - 1]] && rest[1..] == [];
    }
  }

  lemma {:induction false} UnterminatedRest(text: string)
    requires NoClose(text)
    ensures BlockRest(text) == if text == [] then 0 else |text| - 1
  {
    if |text| >= 2 {
      assert text[0..] == text;
      forall i | 0 <= i < |text[1..]|
        ensures !ClosesBlock(text[1..][i..])
      {
        assert text[1..][i..] == text[i + 1..];
      }
      UnterminatedRest(text[1..]);
    }
  }

  /* Comments written between pieces of code */

  datatype Piece =
    | Code(text: string)
    | Line(text: string)   // up to, not including, its newline
    | Block(text: string)
    | Open(text: string)   // a block comment that is never closed

  function Spell(p: Piece): string {
    match p
    case Code(text) => text
    case Line(text) => "//" + text
    case Block(text) => "/*" + text + "*/"
    case Open(text) => "/*" + text
  }

  function Decorated(pieces: seq<Piece>): string {
    if pieces == [] then [] else Spell(pieces[0]) + Decorated(pieces[1..])
  }

  // What a piece leaves: a comment that is never closed, its last character.
  function Kept(p: Piece): string {
    match p
    case Code(text) => text
    case Open(text) => if text == [] then [] else [text[|text| - 1]]
    case _ => []
  }

  function Plain(pieces: seq<Piece>): string {
    if pieces == [] then [] else Kept(pieces[0]) + Plain(pieces[1..])
  }

  predicate NoClose(s: string) {
    forall i :: 0 <= i < |s| ==> !ClosesBlock(s[i..])
  }

  // A slash at the end of `text` opens no comment with what follows.
  predicate EndsCode(text: string, rest: string) {
    text == [] || text[|text| - 1] != '/' || rest == [] || (rest[0] != '/' && rest[0] != '*')
  }

  // Code holds no opener, nor half of one at its end; line comments are ended by
  // a newline of the code or by the end of the text; a block comment does not
  // hold its own end, and only the last piece may lack one.
  predicate WellSpelled(pieces: seq<Piece>) {
    pieces != [] ==>
      && WellSpelled(pieces[1..])
      && match pieces[0]
         case Code(text) => NoOpener(text) && EndsCode(text, Decorated(pieces[1..]))
         case Line(text) => '\n' !in text && (Decorated(pieces[1..]) == [] || Decorated(pieces[1..])[0] == '\n')
         case Block(text) => NoClose(text)
         case Open(text) => NoClose(text) && pieces[1..] == []
  }

  lemma CodeHead(text: string, rest: string)
    requires NoOpener(text) && text != [] && EndsCode(text, rest)
    ensures !OpensLine(text + rest) && !OpensBlock(text + rest)
  {
    assert text[0..] == text;
  }

  lemma {:induction false} StripCode(text: string, rest: string)
    requires NoOpener(text) && EndsCode(text, rest)
    ensures Strip(text + rest) == text + Strip(rest)
  {
    if text == [] {
      assert text + rest == rest;
    } else {
      var s := text + rest;
      assert s[1..] == text[1..] + rest;
      CodeHead(text, rest);
      NoOpenerTail(text);
      hide Strip, NoOpener, OpensLine, OpensBlock;
      StripHead(s);
      StripCode(text[1..], rest);
      assert [text[0]] + (text[1..] + Strip(rest)) == text + Strip(rest);
    }
  }

  lemma {:induction false} BlockRestOf(text: string, rest: string)
    requires NoClose(text)
    ensures BlockRest(text + "*/" + rest) == |text| + 2
  {
    var s := text + "*/" + rest;
    if text == [] {
      assert s[0] == '*' && s[1] == '/';
    } else {
      assert s[1..] == text[1..] + "*/" + rest;
      assert text[0..] == text;
      assert !ClosesBlock(s);
      forall i | 0 <= i < |text[1..]|
        ensures !ClosesBlock(text[1..][i..])
      {
        assert text[1..][i..] == text[i + 1..];
      }
      BlockRestOf(text[1..], rest);
    }
  }

  lemma {:induction false} StripLine(text: string, rest: string)
    requires '\n' !in text && (rest == [] || rest[0] == '\n')
    ensures Strip("//" + text + rest) == Strip(rest)
  {
    var s := "//" + text + rest;
    SpanOf("//" + text, rest, IsInLine);
    assert s[|"//" + text|..] == rest;
  }

  lemma {:induction false} StripBlock(text: string, rest: string)
    requires NoClose(text)
    ensures Strip("/*" + text + "*/" + rest) == Strip(rest)
  {
    var s := "/*" + text + "*/" + rest;
    var inner := text + "*/" + rest;
    assert s[2..] == inner;
    BlockRestOf(text, rest);
    assert inner[|text| + 2..] == rest;
  }

  // Whatever comments are written between the pieces of a text, stripping
  // gives back the text without them.
  lemma {:induction false} StripRemovesComments(pieces: seq<Piece>)
    requires WellSpelled(pieces)
    ensures Strip(Decorated(pieces)) == Plain(pieces)
  {
    if pieces != [] {
      hide Strip, NoOpener, NoClose;
      var rest := Decorated(pieces[1..]);
      StripRemovesComments(pieces[1..]);
      match pieces[0]
      case Code(text) => StripCode(text, rest);
      case Line(text) => StripLine(text, rest);
      case Block(text) => StripBlock(text, rest);
      case Open(text) =>
        assert "/*" + text + [] == "/*" + text;
        UnterminatedBlockLeaks(text);
    }
  }

  // Where a block comment ends, if it does.
  lemma {:induction false} BlockEnds(s: string) returns (text: Option<string>)
    ensures text.None? ==> NoClose(s)
    ensures text.Some? ==> NoClose(text.value) && text.value + "*/" <= s
  {
    if ClosesBlock(s) {
      return Some([]);
    }
    if s == [] {
      return None;
    }
    var rest := BlockEnds(s[1..]);
    NoCloseCons(s[0], s[1..]);
    assert s == [s[0]] + s[1..];
    if rest.None? {
      text := None;
    } else {
      text := Some([s[0]] + rest.value);
      NoCloseCons(s[0], rest.value);
      assert !ClosesBlock(text.value) by { if |rest.value| > 0 { assert text.value[1] == s[1]; } }
    }
  }

  lemma NoCloseCons(c: char, t: string)
    ensures NoClose([c] + t) <==> !ClosesBlock([c] + t) && NoClose(t)
  {
    var s := [c] + t;
    assert forall i :: 0 < i < |s| ==> s[i..] == t[i - 1..];
    assert forall i :: 0 <= i < |t| ==> t[i..] == s[i + 1..];
    assert s[0..] == s;
  }

  // Every text is spelled by some pieces, so stripping is known on all of them.
  lemma {:induction false} EveryTextIsSpelled(s: string) returns (pieces: seq<Piece>)
    ensures WellSpelled(pieces) && Decorated(pieces) == s && Strip(s) == Plain(pieces)
    decreases |s|
  {
    pieces := SpellText(s);
    StripRemovesComments(pieces);
  }

  lemma {:induction false} SpellText(s: string) returns (pieces: seq<Piece>)
    ensures WellSpelled(pieces) && Decorated(pieces) == s
    decreases |s|
  {
    hide NoOpener, NoClose, EndsCode, Span;
    if s == [] {
      pieces := [];
    } else if OpensLine(s) {
      pieces := SpellLine(s);
    } else if OpensBlock(s) {
      pieces := SpellBlock(s);
    } else {
      var rest := SpellText(s[1..]);
      pieces := [Code([s[0]])] + rest;
      OneCharacter(s);
      assert s == [s[0]] + s[1..];
    }
  }

  lemma {:induction false} SpellBlock(s: string) returns (pieces: seq<Piece>)
    requires OpensBlock(s)
    ensures WellSpelled(pieces) && Decorated(pieces) == s
    decreases |s|, 0
  {
    hide NoOpener, NoClose, EndsCode, Span;
    var text := BlockEnds(s[2..]);
    if text.None? {
      pieces := [Open(s[2..])];
      assert s == "/*" + s[2..] + [];
    } else {
      var n := |text.value| + 4;
      var rest := SpellText(s[n..]);
      pieces := [Block(text.value)] + rest;
      BlockCut(s, text.value);
    }
  }

  lemma BlockCut(s: string, text: string)
    requires OpensBlock(s) && text + "*/" <= s[2..]
    ensures |text| + 4 <= |s| && s == "/*" + text + "*/" + s[|text| + 4..]
  {
    assert s == s[..2] + s[2..] && s[..2] == "/*";
    assert s[2..] == text + "*/" + s[2..][|text| + 2..];
  }

  lemma {:induction false} SpellLine(s: string) returns (pieces: seq<Piece>)
    requires OpensLine(s)
    ensures WellSpelled(pieces) && Decorated(pieces) == s
    decreases |s|, 0
  {
    hide NoOpener, NoClose, EndsCode;
    var n := Span(s, IsInLine);
    assert n >= 2 by { assert IsInLine(s[0]) && IsInLine(s[1]); SpanAtLeast(s); }
    var rest := SpellText(s[n..]);
    pieces := [Line(s[2..n])] + rest;
    assert s[2..n] == s[..n][2..];
    assert s == "//" + s[2..n] + s[n..];
  }

  lemma SpanAtLeast(s: string)
    requires |s| >= 2 && IsInLine(s[0]) && IsInLine(s[1])
    ensures Span(s, IsInLine) >= 2
  {
    assert s[1..][0] == s[1];
  }

  lemma OneCharacter(s: string)
    requires s != [] && !OpensLine(s) && !OpensBlock(s)
    ensures NoOpener([s[0]]) && EndsCode([s[0]], s[1..])
  {
  }

  /* The declarations part of a header */

  const GUARD := "#ifdef CHC_IMPLEMENTATION"

  // `str::find` of a string.
  function FindText(s: string, t: string): (r: Option<nat>)
    ensures r.Some? ==> r.value <= |s|
  {
    if StartsWith(s, t) then Some(0)
    else if s == [] then None
    else
      match FindText(s[1..], t)
      case None => None
      case Some(i) => Some(i + 1)
  }

  // It finds the first occurrence, if there is one.
  lemma {:induction false} FindTextIsFirst(s: string, t: string)
    ensures var r := FindText(s, t);
      && (r.Some? ==> StartsWith(s[r.value..], t))
      && forall i :: 0 <= i < (if r.Some? then r.value else |s|) ==> !StartsWith(s[i..], t)
  {
    hide StartsWith;
    assert s[0..] == s;
    if !StartsWith(s, t) && s != [] {
      FindTextIsFirst(s[1..], t);
      forall i | 0 < i <= |s|
        ensures s[i..] == s[1..][i - 1..]
      {
      }
    }
  }

  function Declarations(src: string): string {
    var s := Strip(src);
    match FindText(s, GUARD)
    case Some(at) => s[..at]
    case None => s
  }

  lemma StartsLonger(a: string, b: string, prefix: string)
    requires a <= b
    ensures StartsWith(a, prefix) ==> StartsWith(b, prefix)
  {
    assert b[..|a|] == a;
    assert |prefix| <= |a| ==> a[..|prefix|] == b[..|prefix|];
  }

  // The public declarations hold no comment and no guard, so stripping them a
  // second time, as `extract_enums` does, changes nothing.
  lemma {:induction false} DeclarationsAreStripped(src: string)
    ensures Strip(Declarations(src)) == Declarations(src) <= Strip(src)
    ensures forall i :: 0 <= i < |Declarations(src)| ==> !StartsWith(Declarations(src)[i..], GUARD)
  {
    var s, d := Strip(src), Declarations(src);
    StripLeavesNoOpener(src);
    FindTextIsFirst(s, GUARD);
    forall i | 0 <= i < |d|
      ensures !OpensLine(d[i..]) && !OpensBlock(d[i..]) && !StartsWith(d[i..], GUARD)
    {
      assert d[i..] <= s[i..];
      StartsLonger(d[i..], s[i..], GUARD);
    }
    StripIsIdentity(d);
  }

  predicate NoGuard(body: string) {
    forall i :: 0 <= i < |body| ==> !StartsWith(body[i..], GUARD)
  }

  // A guard cannot start in text without one and end in a guard behind it.
  lemma GuardsDoNotOverlap(body: string, rest: string, i: nat)
    requires NoGuard(body) && i < |body|
    ensures !StartsWith((body + GUARD + rest)[i..], GUARD)
  {
    var tail := (body + GUARD + rest)[i..];
    var k := |body| - i;
    assert !StartsWith(body[i..], GUARD);
    if k >= |GUARD| {
      assert tail[..|GUARD|] == body[i..][..|GUARD|];
    } else {
      assert tail[k] == GUARD[0] && GUARD[k] != GUARD[0];
      assert tail[..|GUARD|][k] == tail[k];
    }
  }

  // What follows the public declarations, if anything does: the guard and the
  // implementation.
  function Guarded(implementation: Option<string>): string {
    if implementation.None? then [] else "#ifdef CHC_IMPLEMENTATION" + implementation.value
  }

  // The declarations of a written header are its text up to the guard, without
  // its comments.
  lemma {:induction false} DeclarationsOfHeader(pieces: seq<Piece>, body: string, implementation: Option<string>)
    requires WellSpelled(pieces) && Plain(pieces) == body + Guarded(implementation) && NoGuard(body)
    ensures Declarations(Decorated(pieces)) == body
  {
    StripRemovesComments(pieces);
    var s := Plain(pieces);
    FindTextIsFirst(s, GUARD);
    match implementation
    case None =>
      assert s == body;
      NoGuardAtEnd(body);
    case Some(rest) =>
      assert s == body + GUARD + rest;
      forall i | 0 <= i < |body|
        ensures !StartsWith(s[i..], GUARD)
      {
        GuardsDoNotOverlap(body, rest, i);
      }
      assert s[|body|..] == GUARD + rest && StartsWith(s[|body|..], GUARD);
      assert s[..|body|] == body;
  }

  lemma NoGuardAtEnd(body: string)
    requires NoGuard(body)
    ensures FindText(body, GUARD) == None
  {
    FindTextIsFirst(body, GUARD);
    assert body[|body|..] == [] && !StartsWith([], GUARD);
  }
}
