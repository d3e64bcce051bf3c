// Function names in build.rs: `scan_declared_functions`.
module CFunctions {
  import opened CText

  /* The specification: one look at every position */

  // An identifier starts at `i`.
  predicate TokenStart(s: string, i: nat) {
    i < |s| && IsIdent(s[i]) && (i == 0 || !IsIdent(s[i - 1]))
  }

  // The longest run of identifier characters from `i`.
  function TokenAt(s: string, i: nat): string
    requires i <= |s|
  {
    s[i..][..Span(s[i..], IsIdent)]
  }

  // Whatever whitespace follows, the next character is an opening parenthesis.
  predicate CallFollows(rest: string) {
    var j := Span(rest, IsSpace);
    j < |rest| && rest[j] == '('
  }

  predicate DeclaredAt(s: string, i: nat) {
    && TokenStart(s, i)
    && StartsWith(TokenAt(s, i), "chc_") && !StartsWith(TokenAt(s, i), "chc__")
    && CallFollows(s[i + |TokenAt(s, i)|..])
  }

  function FunctionsFrom(s: string, i: nat): seq<string>
    decreases |s| - i
  {
    if i >= |s| then []
    else (if DeclaredAt(s, i) then [TokenAt(s, i)] else []) + FunctionsFrom(s, i + 1)
  }

  // A name is listed exactly when it is the identifier at some declared place.
  lemma {:induction false} ListedIffDeclared(s: string, i: nat, name: string)
    ensures name in FunctionsFrom(s, i) <==>
      exists k :: i <= k < |s| && DeclaredAt(s, k) && TokenAt(s, k) == name
    decreases |s| - i
  {
    hide DeclaredAt, TokenAt;
    if i < |s| { ListedIffDeclared(s, i + 1, name); }
  }

  // A declaration of `name`: a maximal identifier from `k` to `e` with the public
  // prefix and not the internal one, whitespace to `j`, and a parenthesis.
  predicate Declares(s: string, name: string, k: nat, e: nat, j: nat) {
    && k < e <= j < |s| && s[k..e] == name
    && (forall i :: k <= i < e ==> IsIdent(s[i])) && !IsIdent(s[e]) && (k > 0 ==> !IsIdent(s[k - 1]))
    && "chc_" <= name && !("chc__" <= name)
    && (forall i :: e <= i < j ==> s[i] in " \t\n\r\U{0C}")
    && s[j] == '('
  }

  lemma SpanIs(s: string, from: nat, to: nat, p: char -> bool)
    requires from <= to <= |s| && (forall i :: from <= i < to ==> p(s[i])) && (to < |s| ==> !p(s[to]))
    ensures Span(s[from..], p) == to - from
  {
    assert s[from..] == s[from..to] + s[to..];
    SpanOf(s[from..to], s[to..], p);
  }

  lemma SpanWithin(s: string, from: nat, p: char -> bool) returns (to: nat)
    requires from <= |s|
    ensures to == from + Span(s[from..], p) <= |s|
    ensures (forall i :: from <= i < to ==> p(s[i])) && (to < |s| ==> !p(s[to]))
  {
    to := from + Span(s[from..], p);
    forall i | from <= i < to
      ensures p(s[i])
    {
      assert s[from..][..to - from][i - from] == s[i];
    }
  }

  lemma StartsWithIsPrefix(s: string, prefix: string)
    ensures StartsWith(s, prefix) <==> prefix <= s
  {
  }

  lemma {:induction false} DeclarationIsFound(s: string, name: string, k: nat, e: nat, j: nat)
    requires Declares(s, name, k, e, j)
    ensures DeclaredAt(s, k) && TokenAt(s, k) == name
  {
    hide Span, All;
    SpanIs(s, k, e, IsIdent);
    SliceOfSlice(s, k, k, e);
    forall i | e <= i < j
      ensures IsSpace(s[i])
    {
      CharClasses(s[i]);
    }
    SpanIs(s, e, j, IsSpace);
    assert s[e..][j - e] == s[j];
    StartsWithIsPrefix(name, "chc_");
    StartsWithIsPrefix(name, "chc__");
  }

  lemma {:induction false} FoundIsDeclaration(s: string, k: nat) returns (e: nat, j: nat)
    requires DeclaredAt(s, k)
    ensures Declares(s, TokenAt(s, k), k, e, j)
  {
    hide Span, All;
    e := SpanWithin(s, k, IsIdent);
    SliceOfSlice(s, k, k, e);
    j := SpanWithin(s, e, IsSpace);
    assert s[e..][j - e] == s[j];
    forall i | e <= i < j
      ensures s[i] in " \t\n\r\U{0C}"
    {
      CharClasses(s[i]);
    }
    StartsWithIsPrefix(TokenAt(s, k), "chc_");
    StartsWithIsPrefix(TokenAt(s, k), "chc__");
    assert e == j ==> !IsIdent('(');
    assert e < j ==> s[e] in " \t\n\r\U{0C}" && !IsIdent(s[e]);
  }

  // A name is listed exactly when the text declares it somewhere.
  lemma {:induction false} ListedExactly(s: string, name: string)
    ensures name in FunctionsFrom(s, 0) <==> exists k: nat, e: nat, j: nat :: Declares(s, name, k, e, j)
  {
    hide DeclaredAt, TokenAt, Declares;
    ListedIffDeclared(s, 0, name);
    if name in FunctionsFrom(s, 0) {
      var k :| 0 <= k < |s| && DeclaredAt(s, k) && TokenAt(s, k) == name;
      var e, j := FoundIsDeclaration(s, k);
    }
    if k: nat, e: nat, j: nat :| Declares(s, name, k, e, j) {
      DeclarationIsFound(s, name, k, e, j);
      assert k < |s| by { DeclaredInside(s, name, k, e, j); }
    }
  }

  lemma DeclaredInside(s: string, name: string, k: nat, e: nat, j: nat)
    requires Declares(s, name, k, e, j)
    ensures k < |s|
  {
  }

  // Nothing starts strictly inside a run of identifier characters.
  lemma {:induction false} NothingInside(s: string, i: nat, e: nat)
    requires 0 < i <= e <= |s| && forall k :: i - 1 <= k < e ==> IsIdent(s[k])
    ensures FunctionsFrom(s, i) == FunctionsFrom(s, e)
    decreases e - i
  {
    if i < e {
      assert !TokenStart(s, i);
      assert [] + FunctionsFrom(s, i + 1) == FunctionsFrom(s, i + 1);
      NothingInside(s, i + 1, e);
    }
  }

  // A position the loop steps over.
  lemma {:induction false} NothingHere(s: string, i: nat)
    requires i < |s| && (!StartsWith(s[i..], "chc_") || (i > 0 && IsIdent(s[i - 1])))
    ensures FunctionsFrom(s, i) == FunctionsFrom(s, i + 1)
  {
    var token := TokenAt(s, i);
    if StartsWith(token, "chc_") {
      assert s[i..][..4] == token[..4];
    }
    assert [] + FunctionsFrom(s, i + 1) == FunctionsFrom(s, i + 1);
  }

  // A candidate from `start` to `e`.
  lemma {:induction false} CandidateHere(s: string, start: nat, e: nat)
    requires start < e <= |s| && StartsWith(s[start..], "chc_") && (start > 0 ==> !IsIdent(s[start - 1]))
    requires e - start == Span(s[start..], IsIdent)
    ensures FunctionsFrom(s, start) ==
      (if CallFollows(s[e..]) && !StartsWith(s[start..e], "chc__") then [s[start..e]] else []) + FunctionsFrom(s, e)
  {
    hide Span, All, CallFollows, StartsWith, TokenAt, TokenStart, FunctionsFrom;
    CandidateToken(s, start, e);
    assert start + |s[start..e]| == e;
    FunctionsHere(s, start);
    NothingInside(s, start + 1, e);
  }

  lemma FunctionsHere(s: string, i: nat)
    requires i < |s|
    ensures FunctionsFrom(s, i) == (if DeclaredAt(s, i) then [TokenAt(s, i)] else []) + FunctionsFrom(s, i + 1)
  {
    hide DeclaredAt, TokenAt;
  }

  lemma {:induction false} CandidateToken(s: string, start: nat, e: nat)
    requires start < e <= |s| && StartsWith(s[start..], "chc_") && (start > 0 ==> !IsIdent(s[start - 1]))
    requires e - start == Span(s[start..], IsIdent)
    ensures TokenStart(s, start) && TokenAt(s, start) == s[start..e] && StartsWith(s[start..e], "chc_")
    ensures forall k :: start <= k < e ==> IsIdent(s[k])
  {
    RunIsIdent(s, start, e);
    ChcIsIdent(s[start..]);
    SliceOfSlice(s, start, start, e);
    SliceOfSlice(s, start, start, start + 4);
    assert s[start..e][..4] == s[start..start + 4];
  }

  lemma RunIsIdent(s: string, start: nat, e: nat)
    requires start <= e <= |s| && e - start == Span(s[start..], IsIdent)
    ensures forall k :: start <= k < e ==> IsIdent(s[k])
  {
    forall k | start <= k < e
      ensures IsIdent(s[k])
    {
      assert s[start..][..e - start][k - start] == s[k];
    }
  }

  lemma NothingAtEnd(s: string)
    ensures FunctionsFrom(s, |s|) == []
  {
  }

  lemma ChcIsIdent(s: string)
    requires StartsWith(s, "chc_")
    ensures Span(s, IsIdent) >= 4
  {
    var n := Span(s, IsIdent);
    assert forall k :: 0 <= k < 4 ==> s[k] == s[..4][k];
    assert forall c :: c in "chc_" ==> IsIdent(c);
  }

  /* The loop */

  method ScanDeclaredFunctions(decls: string) returns (out: seq<string>)
    ensures out == FunctionsFrom(decls, 0)
  {
    hide Span, All, FunctionsFrom, StartsWith;
    out := [];
    var i := 0;
    assert [] + FunctionsFrom(decls, 0) == FunctionsFrom(decls, 0);
    while i < |decls|
      invariant 0 <= i <= |decls|
      invariant out + FunctionsFrom(decls, i) == FunctionsFrom(decls, 0)
    {
      if !StartsWith(decls[i..], "chc_") || (i > 0 && IsIdent(decls[i - 1])) {
        NothingHere(decls, i);
        i := i + 1;
        continue;
      }
      var start := i;
      i := SkipWhile(decls, i, IsIdent);
      ChcIsIdent(decls[start..]);
      CandidateHere(decls, start, i);
      var name := decls[start..i];
      var j := SkipWhile(decls, i, IsSpace);
      if j < |decls| && decls[j] == '(' && !StartsWith(name, "chc__") {
        out := out + [name];
      }
    }
    NothingAtEnd(decls);
  }

  /* Writing declarations and reading them back */

  // A text that ends in neither an identifier nor whitespace after one leaves
  // what follows alone; after other whitespace what follows must not go on with
  // whitespace or open a parenthesis.
  predicate Separates(a: string, b: string) {
    a != [] && b != [] ==>
      && !IsIdent(a[|a| - 1])
      && (!IsSpace(a[|a| - 1]) || (!IsSpace(b[0]) && b[0] != '('))
  }

  lemma {:induction false} SpanInFront(a: string, b: string, from: nat, p: char -> bool)
    requires from <= |a| && (a == [] || b == [] || !p(a[|a| - 1]) || !p(b[0]))
    requires from == |a| ==> b == [] || !p(b[0])
    ensures Span((a + b)[from..], p) == Span(a[from..], p)
  {
    var to := SpanWithin(a, from, p);
    assert forall i :: from <= i < to ==> (a + b)[i] == a[i];
    assert to < |a| ==> (a + b)[to] == a[to];
    assert to == |a| && b != [] ==> (a + b)[to] == b[0];
    SpanIs(a + b, from, to, p);
  }

  lemma {:induction false} CallInFront(a: string, b: string, e: nat)
    requires Separates(a, b) && e < |a|
    ensures CallFollows((a + b)[e..]) == CallFollows(a[e..])
  {
    hide Span, All;
    if b == [] {
      assert a + b == a;
    } else {
      SpanInFront(a, b, e, IsSpace);
      var j := SpanWithin(a, e, IsSpace);
      assert (a + b)[e..] == a[e..] + b;
      if j < |a| {
        assert (a + b)[e..][j - e] == a[e..][j - e];
      } else {
        assert (a + b)[e..][j - e] == b[0];
      }
    }
  }

  lemma {:induction false} DeclaredInFront(a: string, b: string, i: nat)
    requires Separates(a, b) && i < |a|
    ensures DeclaredAt(a + b, i) == DeclaredAt(a, i)
    ensures DeclaredAt(a, i) ==> TokenAt(a + b, i) == TokenAt(a, i)
  {
    hide Span, All, CallFollows, StartsWith;
    if b == [] {
      assert a + b == a;
    } else {
      assert TokenStart(a + b, i) <==> TokenStart(a, i);
      SpanInFront(a, b, i, IsIdent);
      var e := SpanWithin(a, i, IsIdent);
      assert e < |a|;
      assert (a + b)[i..][..e - i] == a[i..][..e - i];
      CallInFront(a, b, e);
    }
  }

  lemma {:induction false} DeclaredBehind(a: string, b: string, i: nat)
    requires Separates(a, b) && i < |b|
    ensures DeclaredAt(a + b, |a| + i) == DeclaredAt(b, i) && TokenAt(a + b, |a| + i) == TokenAt(b, i)
  {
    hide Span, All, CallFollows, StartsWith;
    assert (a + b)[|a| + i..] == b[i..];
    var t := TokenAt(b, i);
    assert i + |t| <= |b| && (a + b)[|a| + i + |t|..] == b[i + |t|..];
    assert TokenStart(a + b, |a| + i) <==> TokenStart(b, i) by {
      if i > 0 { assert (a + b)[|a| + i - 1] == b[i - 1]; }
    }
  }

  lemma {:induction false} BehindFrom(a: string, b: string, i: nat)
    requires Separates(a, b) && i <= |b|
    ensures FunctionsFrom(a + b, |a| + i) == FunctionsFrom(b, i)
    decreases |b| - i
  {
    hide DeclaredAt, TokenAt;
    if i < |b| {
      DeclaredBehind(a, b, i);
      BehindFrom(a, b, i + 1);
      FunctionsHere(a + b, |a| + i);
    } else {
      NothingAtEnd(a + b);
    }
  }

  lemma {:induction false} InFrontFrom(a: string, b: string, i: nat)
    requires Separates(a, b) && i <= |a|
    ensures FunctionsFrom(a + b, i) == FunctionsFrom(a, i) + FunctionsFrom(b, 0)
    decreases |a| - i
  {
    hide DeclaredAt, TokenAt;
    if i < |a| {
      DeclaredInFront(a, b, i);
      InFrontFrom(a, b, i + 1);
      FunctionsHere(a + b, i);
      FunctionsHere(a, i);
    } else {
      BehindFrom(a, b, 0);
      NothingAtEnd(a);
      assert [] + FunctionsFrom(b, 0) == FunctionsFrom(b, 0);
    }
  }

  // What is listed of two texts is what is listed of each.
  lemma FunctionsOfTwo(a: string, b: string)
    requires Separates(a, b)
    ensures FunctionsFrom(a + b, 0) == FunctionsFrom(a, 0) + FunctionsFrom(b, 0)
  {
    InFrontFrom(a, b, 0);
  }

  // A piece of a header: a declaration up to its parenthesis, or text that
  // declares nothing.
  datatype Piece = Declaration(name: string, gap: string) | Filler(text: string)

  predicate IsFunctionName(name: string) {
    All(name, IsIdent) && "chc_" <= name && !("chc__" <= name)
  }

  ghost predicate ValidPiece(piece: Piece) {
    match piece
    case Declaration(name, gap) => IsFunctionName(name) && forall c :: c in gap ==> c in " \t\n\r\U{0C}"
    case Filler(text) => forall name: string, k: nat, e: nat, j: nat :: !Declares(text, name, k, e, j)
  }

  function Spelled(piece: Piece): string {
    match piece
    case Declaration(name, gap) => name + gap + "("
    case Filler(text) => text
  }

  function Text(pieces: seq<Piece>): string {
    if pieces == [] then [] else Spelled(pieces[0]) + Text(pieces[1..])
  }

  ghost predicate ValidPieces(pieces: seq<Piece>) {
    pieces != [] ==>
      ValidPiece(pieces[0]) && Separates(Spelled(pieces[0]), Text(pieces[1..])) && ValidPieces(pieces[1..])
  }

  function Names(pieces: seq<Piece>): seq<string> {
    if pieces == [] then []
    else (if pieces[0].Declaration? then [pieces[0].name] else []) + Names(pieces[1..])
  }

  lemma {:induction false} FillerLists(text: string)
    requires ValidPiece(Filler(text))
    ensures FunctionsFrom(text, 0) == []
  {
    hide Declares;
    var names := FunctionsFrom(text, 0);
    if names != [] {
      assert names[0] in names;
      ListedExactly(text, names[0]);
    }
  }

  lemma {:induction false} DeclarationLists(name: string, gap: string)
    requires ValidPiece(Declaration(name, gap))
    ensures FunctionsFrom(name + gap + "(", 0) == [name]
  {
    hide FunctionsFrom, DeclaredAt;
    var s, e, j := name + gap + "(", |name|, |name| + |gap|;
    forall i | 0 <= i < e
      ensures IsIdent(s[i])
    {
      assert s[i] == name[i];
    }
    forall i | e <= i < j
      ensures s[i] in " \t\n\r\U{0C}" && !IsIdent(s[i])
    {
      assert s[i] == gap[i - e] && gap[i - e] in gap;
    }
    assert s[0..e] == name && s[j] == '(';
    assert Declares(s, name, 0, e, j);
    DeclarationIsFound(s, name, 0, e, j);
    FunctionsHere(s, 0);
    NothingInside(s, 1, e);
    NothingStarts(s, e);
  }

  // No identifier from `i` on.
  lemma {:induction false} NothingStarts(s: string, i: nat)
    requires i <= |s| && forall k :: i <= k < |s| ==> !IsIdent(s[k])
    ensures FunctionsFrom(s, i) == []
    decreases |s| - i
  {
    hide TokenAt;
    if i < |s| {
      NothingStarts(s, i + 1);
      assert !TokenStart(s, i);
    } else {
      NothingAtEnd(s);
    }
  }

  // Declarations written in any order and any number, with any text between them
  // that declares nothing, are listed by name, in that order and number.
  lemma {:induction false} FunctionsRoundTrip(pieces: seq<Piece>)
    requires ValidPieces(pieces)
    ensures FunctionsFrom(Text(pieces), 0) == Names(pieces)
  {
    hide FunctionsFrom, ValidPiece, Separates;
    if pieces == [] {
      NothingAtEnd([]);
    } else {
      FunctionsRoundTrip(pieces[1..]);
      FunctionsOfTwo(Spelled(pieces[0]), Text(pieces[1..]));
      match pieces[0]
      case Declaration(name, gap) => DeclarationLists(name, gap);
      case Filler(text) => FillerLists(text);
    }
  }
}
