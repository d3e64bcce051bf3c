// Writing enums as C text and extracting them again.
module CEnumRoundTrip {
  import opened Outcomes
  import opened CText
  import opened CComments
  import opened CIntegers
  import opened CEnums
  import opened CEnumValues

  /* Enumerators */

  // What the text of an enumerator may be. No braces: the script would take them
  // for those of the enum.
  predicate ValidEnumerator(e: Enumerator) {
    && Named(e)
    && match e
       case Gap(pad) => All(pad, IsBlank)
       case Implicit(left, name, right) => All(left, IsBlank) && All(right, IsBlank)
       case Explicit(left, name, before, after, literal, right) =>
         && All(left, IsBlank) && All(before, IsBlank) && All(after, IsBlank)
         && ValidLiteral(literal) && All(right, IsBlank)
       case Other(raw, _) => NoBraces(raw)
  }

  predicate NoBraces(s: string) {
    '{' !in s && '}' !in s
  }

  function Spelled(e: Enumerator): string
    requires ValidEnumerator(e)
  {
    match e
    case Gap(pad) => pad
    case Implicit(left, name, right) => left + name + right
    case Explicit(left, name, before, after, literal, right) =>
      left + (name + before + "=" + after + LiteralText(literal)) + right
    case Other(raw, _) => raw
  }

  predicate BelowMax(vs: seq<Variant>) {
    forall v :: v in vs ==> v.value < I64_MAX
  }

  lemma {:induction false} NameIsSolid(name: string)
    requires IsName(name)
    ensures Solid(name)
  {
    assert IsIdent(name[0]) && IsIdent(name[|name| - 1]);
  }

  lemma {:induction false} ReadGap(pad: string)
    requires ValidEnumerator(Gap(pad))
    ensures Trim(Spelled(Gap(pad))) == []
  {
    TrimOf(pad, [], []);
    assert pad + [] + [] == pad;
  }

  lemma {:induction false} ReadImplicit(left: string, name: string, right: string)
    requires ValidEnumerator(Implicit(left, name, right))
    ensures Trim(Spelled(Implicit(left, name, right))) == name != [] && Find(name, '=') == None
  {
    NameIsSolid(name);
    TrimOf(left, name, right);
    NotAmong(name, IsIdent, '=');
  }

  // The parts that trimming and splitting at `=` find in one with a value.
  lemma {:induction false} ReadParts(
      left: string, name: string, before: string, after: string, text: string, right: string)
    requires All(left, IsBlank) && IsName(name) && All(before, IsBlank)
    requires All(after, IsBlank) && Solid(text) && All(right, IsBlank)
    ensures var raw := name + before + "=" + after + text;
      var eq := |name + before|;
      && Trim(left + raw + right) == raw && Find(raw, '=') == Some(eq)
      && Trim(raw[..eq]) == name && Trim(raw[eq + 1..]) == text
  {
    hide All, Trim, Find;
    var head, tail := name + before, after + text;
    var raw := name + before + "=" + after + text;
    assert raw == head + ['='] + tail;
    NameIsSolid(name);
    assert raw[0] == name[0] && raw[|raw| - 1] == text[|text| - 1];
    TrimOf(left, raw, right);
    HeadHasNoEquals(name, before);
    FindOf(head, '=', tail);
    assert raw[..|head|] == head && raw[|head| + 1..] == tail;
    EmptyPads(name, before);
    EmptyPads(after, text);
    TrimOf([], name, before);
    TrimOf(after, text, []);
  }

  lemma EmptyPads(a: string, b: string)
    ensures [] + a + b == a + b == a + b + [] && a + [] == a && All([], IsBlank)
  {
  }

  lemma HeadHasNoEquals(name: string, pad: string)
    requires IsName(name) && All(pad, IsBlank)
    ensures '=' !in name + pad
  {
    NotAmong(name, IsIdent, '=');
    NotAmong(pad, IsBlank, '=');
  }

  lemma ParseInRange(s: string)
    ensures ParseCInteger(s).Some? ==> I64_MIN <= ParseCInteger(s).value <= I64_MAX
  {
    hide Trim, TrimEnd;
  }

  // One turn of the body parser.
  lemma {:induction false} PieceParsed(pieces: seq<string>, next: int)
    requires pieces != []
    ensures EntryOf(pieces[0]).Skip? ==> ParsePieces(pieces, next) == ParsePieces(pieces[1..], next)
    ensures !EntryOf(pieces[0]).Skip? ==>
      var value := if EntryOf(pieces[0]).Valued? then EntryOf(pieces[0]).value else next;
      ParsePieces(pieces, next) ==
        if value == I64_MAX then None
        else Cons(Variant(EntryOf(pieces[0]).name, value), ParsePieces(pieces[1..], value + 1))
    ensures EntryOf(pieces[0]).Valued? ==> EntryOf(pieces[0]).value <= I64_MAX
  {
    hide Trim, Find, ParseCInteger;
    var raw := Trim(pieces[0]);
    if raw != [] && Find(raw, '=').Some? { ParseInRange(Trim(raw[Find(raw, '=').value + 1..])); }
  }

  lemma BelowMaxSnoc(vs: seq<Variant>, v: Variant)
    ensures BelowMax(vs + [v]) <==> BelowMax(vs) && v.value < I64_MAX
  {
    assert v in vs + [v] && forall w :: w in vs ==> w in vs + [v];
  }

  lemma BelowMaxPrefix(vs: seq<Variant>, all: seq<Variant>)
    requires vs <= all && BelowMax(all)
    ensures BelowMax(vs) && Next(vs) <= I64_MAX
  {
    assert forall w :: w in vs ==> w in all;
  }

  lemma ListingHead(done: seq<Variant>, pieces: seq<string>)
    requires pieces != []
    ensures Listing(done, EntriesOf(pieces)) == Listing(Added(done, EntryOf(pieces[0])), EntriesOf(pieces[1..]))
  {
    var head := EntriesOf(pieces)[..1];
    assert EntriesOf(pieces) == head + EntriesOf(pieces[1..]);
    ListingAppend(done, head, EntriesOf(pieces[1..]));
    assert head[..0] == [] && head[0] == EntryOf(pieces[0]);
  }

  // The body parser collects what the entries list, and stops exactly when some
  // constant is the largest 64-bit one.
  lemma {:induction false} PiecesListed(done: seq<Variant>, pieces: seq<string>)
    requires BelowMax(done)
    ensures var all := Listing(done, EntriesOf(pieces));
      Onto(done, ParsePieces(pieces, Next(done))) == if BelowMax(all) then Some(all) else None
    decreases |pieces|
  {
    hide ParsePieces, BelowMax, EntryOf, Onto, Cons, Listing, Next, EntriesOf;
    if pieces == [] {
      NothingListed(done);
    } else {
      var entry := EntryOf(pieces[0]);
      var rest := pieces[1..];
      BelowMaxPrefix(done, done);
      ListingHead(done, pieces);
      PieceParsed(pieces, Next(done));
      if entry.Skip? {
        PiecesListed(done, rest);
      } else {
        var v := Variant(entry.name, if entry.Valued? then entry.value else Next(done));
        BelowMaxSnoc(done, v);
        ListingExtends(done + [v], EntriesOf(rest));
        if v.value == I64_MAX {
          NothingOnto(done);
          if BelowMax(Listing(done, EntriesOf(pieces))) {
            BelowMaxPrefix(done + [v], Listing(done, EntriesOf(pieces)));
          }
        } else {
          PiecesListed(done + [v], rest);
          NextAfter(done, v);
          OntoCons(done, v, ParsePieces(rest, v.value + 1));
        }
      }
    }
  }

  lemma NothingListed(done: seq<Variant>)
    ensures Onto(done, ParsePieces([], Next(done))) == Some(done) == Some(Listing(done, EntriesOf([])))
  {
    assert done + [] == done && EntriesOf([]) == [];
  }

  lemma NothingOnto(done: seq<Variant>)
    ensures Onto(done, None) == None
  {
  }

  lemma NextAfter(done: seq<Variant>, v: Variant)
    ensures Next(done + [v]) == v.value + 1
  {
  }

  lemma {:induction false} PiecesMean(pieces: seq<string>)
    ensures var all := Listing([], EntriesOf(pieces));
      ParsePieces(pieces, 0) == if BelowMax(all) then Some(all) else None
  {
    hide Listing, EntriesOf;
    PiecesListed([], pieces);
    OntoEmpty(ParsePieces(pieces, 0));
  }

  lemma PadHas(s: string, p: char -> bool)
    requires All(s, p) && !p(',') && !p('{') && !p('}')
    ensures ',' !in s && NoBraces(s)
  {
    NotAmong(s, p, ',');
    NotAmong(s, p, '{');
    NotAmong(s, p, '}');
  }

  // Only `Other` holds commas, and nothing holds braces.
  lemma {:induction false} SpelledChars(e: Enumerator)
    requires ValidEnumerator(e)
    ensures NoBraces(Spelled(e)) && (!e.Other? ==> ',' !in Spelled(e))
  {
    hide LiteralText;
    match e
    case Gap(pad) => PadHas(pad, IsBlank);
    case Implicit(left, name, right) =>
      PadHas(left, IsBlank);
      PadHas(name, IsIdent);
      PadHas(right, IsBlank);
    case Explicit(left, name, before, after, literal, right) =>
      PadHas(left, IsBlank);
      PadHas(name, IsIdent);
      PadHas(before, IsBlank);
      PadHas(after, IsBlank);
      PadHas(right, IsBlank);
      LiteralTextIsSolid(literal);
    case Other(_, _) =>
  }

  // The script's view of an enumerator is what its text splits into.
  lemma {:induction false} SpelledReads(e: Enumerator)
    requires ValidEnumerator(e)
    ensures EntriesOf(Split(Spelled(e), ',')) == Script(e)
  {
    hide Trim, Find, ParseCInteger, LiteralText, All;
    SpelledChars(e);
    if !e.Other? {
      assert Split(Spelled(e), ',') == [Spelled(e)] by { SplitOfNone(Spelled(e), ','); }
      match e {
        case Gap(pad) => ReadGap(pad);
        case Implicit(left, name, right) => ReadImplicit(left, name, right);
        case Explicit(left, name, before, after, l, right) =>
          LiteralTextIsSolid(l);
          ReadParts(left, name, before, after, LiteralText(l), right);
          ParsePlain(l);
        case _ =>
      }
    }
  }

  lemma SplitOfNone(s: string, c: char)
    requires c !in s
    ensures Split(s, c) == [s]
  {
    assert Find(s, c) == None;
  }

  // A value given in any other way without a comma is right exactly when it is
  // read as what it is in C.
  lemma {:induction false} GivenValueIsRight(
      es: seq<Enumerator>, k: nat,
      left: string, name: string, before: string, after: string, text: string, right: string)
    requires k < |es| && es[k].Other? && All(left, IsBlank) && IsName(name) && All(before, IsBlank)
    requires All(after, IsBlank) && Solid(text) && All(right, IsBlank)
    requires es[k].raw == left + (name + before + "=" + after + text) + right && ',' !in es[k].raw
    requires es[k].inC.Some? && es[k].inC.value.name == name && es[k].inC.value.given.Some?
    ensures Telling(es[k])
    ensures RightAt(es, k) <==> ParseCInteger(text) == es[k].inC.value.given
  {
    hide Trim, Find, ParseCInteger, All, IsName;
    ReadParts(left, name, before, after, text, right);
    SplitOfNone(es[k].raw, ',');
    var entries, upto := Script(es[k]), es[..k + 1];
    assert entries == [EntryOf(es[k].raw)];
    assert upto[..k] == es[..k];
    assert entries[..0] == [] && Listing(CMeaning(es[..k]), []) == CMeaning(es[..k]) && Count([]) == 0;
    var done := CMeaning(es[..k]);
    var c := Variant(name, es[k].inC.value.given.value);
    assert CMeaning(upto) == done + [c];
    assert (done + [c])[|done|] == c;
    if ParseCInteger(text).Some? {
      var v := Variant(name, ParseCInteger(text).value);
      assert Listing(done, entries) == done + [v] && (done + [v])[|done|] == v;
    } else {
      assert |done| != |done + [c]|;
    }
  }

  /* Bodies */

  function AllEntries(es: seq<Enumerator>): seq<Entry> {
    if es == [] then [] else Script(es[0]) + AllEntries(es[1..])
  }

  lemma {:induction false} AllEntriesSnoc(es: seq<Enumerator>, e: Enumerator)
    ensures AllEntries(es + [e]) == AllEntries(es) + Script(e)
  {
    hide Script;
    if es == [] {
      assert [e][1..] == [] && [] + [e] == [e];
      assert Script(e) + [] == Script(e) == [] + Script(e);
    } else {
      AllEntriesSnoc(es[1..], e);
      assert (es + [e])[1..] == es[1..] + [e];
      assert Script(es[0]) + (AllEntries(es[1..]) + Script(e)) == (Script(es[0]) + AllEntries(es[1..])) + Script(e);
    }
  }

  lemma {:induction false} MeaningIsListing(es: seq<Enumerator>)
    ensures Meaning(es) == Listing([], AllEntries(es))
  {
    hide Script, AllEntries;
    if es == [] {
      assert AllEntries([]) == [] by { NoEntries(); }
    } else {
      var init, e := es[..|es| - 1], es[|es| - 1];
      assert es == init + [e];
      MeaningIsListing(init);
      AllEntriesSnoc(init, e);
      ListingAppend([], AllEntries(init), Script(e));
    }
  }

  lemma NoEntries()
    ensures AllEntries([]) == []
  {
  }

  function SpelledAll(es: seq<Enumerator>): seq<string>
    requires forall e :: e in es ==> ValidEnumerator(e)
  {
    seq(|es|, i requires 0 <= i < |es| => Spelled(es[i]))
  }

  function BodyText(es: seq<Enumerator>): string
    requires es != [] && forall e :: e in es ==> ValidEnumerator(e)
  {
    Join(SpelledAll(es), ',')
  }

  lemma EntriesOfTwo(a: seq<string>, b: seq<string>)
    ensures EntriesOf(a + b) == EntriesOf(a) + EntriesOf(b)
  {
  }

  lemma {:induction false} BodySplits(es: seq<Enumerator>)
    requires es != [] && forall e :: e in es ==> ValidEnumerator(e)
    ensures EntriesOf(Split(BodyText(es), ',')) == AllEntries(es)
    ensures NoBraces(BodyText(es))
  {
    hide ValidEnumerator, Spelled, Split, Script, EntriesOf;
    assert es[0] in es;
    SpelledReads(es[0]);
    SpelledChars(es[0]);
    var rest := es[1..];
    if rest == [] {
      assert SpelledAll(es) == [Spelled(es[0])];
      assert Script(es[0]) + [] == Script(es[0]);
    } else {
      assert forall e :: e in rest ==> e in es;
      BodySplits(rest);
      assert SpelledAll(es)[1..] == SpelledAll(rest) && SpelledAll(es)[0] == Spelled(es[0]);
      SplitOfTwo(Spelled(es[0]), BodyText(rest), ',');
      EntriesOfTwo(Split(Spelled(es[0]), ','), Split(BodyText(rest), ','));
    }
  }

  // The text between the braces means to the script what its enumerators do.
  lemma {:induction false} BodyMeans(es: seq<Enumerator>)
    requires es != [] && forall e :: e in es ==> ValidEnumerator(e)
    ensures ParseBody(BodyText(es)) == if BelowMax(Meaning(es)) then Some(Meaning(es)) else None
    ensures NoBraces(BodyText(es))
  {
    hide Listing, EntriesOf, Split, AllEntries, BelowMax, Meaning, ParsePieces;
    BodySplits(es);
    MeaningIsListing(es);
    PiecesMean(Split(BodyText(es), ','));
  }

  /* One enum */

  datatype EnumText = EnumText(gap1: string, tag: Option<string>, gap2: string, body: seq<Enumerator>)

  predicate ValidEnum(e: EnumText) {
    && All(e.gap1, IsSpace) && All(e.gap2, IsSpace)
    && (e.tag.Some? ==> e.gap1 != [] && IsName(e.tag.value))
    && (e.tag.None? ==> e.gap2 == [])
    && e.body != [] && forall v :: v in e.body ==> ValidEnumerator(v)
  }

  function HeaderText(e: EnumText): string {
    e.gap1 + (if e.tag.Some? then e.tag.value else []) + e.gap2
  }

  function EnumSource(e: EnumText): string
    requires ValidEnum(e)
  {
    "enum" + HeaderText(e) + "{" + BodyText(e.body) + "}"
  }

  lemma {:induction false} TaggedRead(gap1: string, tag: string, gap2: string, brace: string)
    requires gap1 != [] && All(gap1, IsSpace) && IsName(tag) && All(gap2, IsSpace) && brace != [] && brace[0] == '{'
    ensures Header(gap1 + tag + gap2 + brace) == (Some(tag), |gap1 + tag + gap2|)
  {
    hide Span, All, IsName, Header;
    var tail := gap2 + brace;
    TaggedSpans(gap1, tag, gap2, brace);
    Cut(gap1, tag, tail);
    Regroup(gap1 + tag, gap2, brace);
    HeaderFrom(gap1 + tag + tail, |gap1|, |gap1 + tag|, |gap1 + tag + gap2|);
  }

  lemma {:induction false} TaggedSpans(gap1: string, tag: string, gap2: string, brace: string)
    requires gap1 != [] && All(gap1, IsSpace) && IsName(tag) && All(gap2, IsSpace) && brace != [] && brace[0] == '{'
    ensures var s := gap1 + tag + (gap2 + brace);
      && Span(s, IsSpace) == |gap1| && (IsAlpha(s[|gap1|]) || s[|gap1|] == '_')
      && Span(s[|gap1|..], IsIdent) == |tag| && Span(s[|gap1 + tag|..], IsSpace) == |gap2|
  {
    NameStarts(tag);
    SpaceStarts(gap2);
    hide Span, All, IsName;
    var tail := gap2 + brace;
    Cut(gap1, tag, tail);
    assert gap1 + tag + tail == gap1 + (tag + tail);
    assert tail[0] == if gap2 == [] then brace[0] else gap2[0];
    SpanOf(gap1, tag + tail, IsSpace);
    SpanOf(tag, tail, IsIdent);
    SpanOf(gap2, brace, IsSpace);
  }

  lemma Regroup(a: string, b: string, c: string)
    ensures a + b + c == a + (b + c)
  {
  }

  lemma Cut(a: string, b: string, c: string)
    ensures (a + b + c)[|a|..] == b + c && (a + b + c)[|a + b|..] == c
    ensures (a + b + c)[|a|..|a + b|] == b && (b != [] ==> (a + b + c)[|a|] == b[0])
  {
  }

  lemma HeaderFrom(s: string, j: nat, e: nat, at: nat)
    requires j < e <= at <= |s| && j == Span(s, IsSpace) && (IsAlpha(s[j]) || s[j] == '_')
    requires e - j == Span(s[j..], IsIdent) && at - e == Span(s[e..], IsSpace)
    ensures Header(s) == (Some(s[j..e]), at)
  {
    hide Span, All;
  }

  lemma {:induction false} HeaderRead(e: EnumText, rest: string)
    requires ValidEnum(e)
    ensures Header(HeaderText(e) + "{" + rest) == (e.tag, |HeaderText(e)|)
  {
    hide Span, All;
    var s := HeaderText(e) + "{" + rest;
    if e.tag.Some? {
      assert s == e.gap1 + e.tag.value + e.gap2 + ("{" + rest);
      TaggedRead(e.gap1, e.tag.value, e.gap2, "{" + rest);
    } else {
      assert s == e.gap1 + ("{" + rest);
      SpanOf(e.gap1, "{" + rest, IsSpace);
    }
  }

  lemma NameStarts(name: string)
    requires IsName(name)
    ensures (IsAlpha(name[0]) || name[0] == '_') && !IsSpace(name[0]) && All(name, IsIdent)
  {
    assert IsIdent(name[0]);
  }

  lemma SpaceStarts(gap: string)
    requires All(gap, IsSpace)
    ensures gap != [] ==> IsSpace(gap[0])
  {
  }

  lemma {:induction false} CloseOf(body: string, rest: string)
    requires NoBraces(body)
    ensures Close(body + "}" + rest, 1) == Some(|body| + 1)
  {
    var s := body + "}" + rest;
    if body != [] {
      assert s[0] == body[0] && s[1..] == body[1..] + "}" + rest;
      assert forall c :: c in body[1..] ==> c in body;
      CloseOf(body[1..], rest);
    }
  }

  // One enum in the text `s`: the keyword, an optional tag, and braces around a
  // body in which they are balanced.
  predicate IsEnum(s: string, gap1: string, tag: Option<string>, gap2: string, body: string, rest: string) {
    && s == "enum" + (gap1 + (if tag.Some? then tag.value else []) + gap2 + ("{" + (body + "}" + rest)))
    && All(gap1, IsSpace) && All(gap2, IsSpace)
    && (if tag.Some? then gap1 != [] && IsName(tag.value) else gap2 == [])
    && Balanced(body)
  }

  predicate Balanced(body: string) {
    Balance(body) == 0 && forall k :: 0 <= k <= |body| ==> Balance(body[..k]) >= 0
  }

  lemma {:induction false} BalancedCloses(body: string, rest: string)
    requires Balanced(body)
    ensures Close(body + "}" + rest, 1) == Some(|body| + 1)
  {
    hide Close;
    var s, n := body + "}" + rest, |body| + 1;
    CloseIsFirstBalance(s, 1);
    forall k | 0 <= k <= |body|
      ensures 1 + Balance(s[..k]) > 0
    {
      assert s[..k] == body[..k];
    }
    assert s[..n] == body + "}";
    BalanceOfTwo(body, "}");
    assert Balance("}") == -1 by { assert "}"[1..] == []; }
  }

  lemma {:induction false} ClosedIsBalanced(s: string)
    requires Close(s, 1).Some?
    ensures var n := Close(s, 1).value;
      0 < n <= |s| && s[n - 1] == '}' && Balanced(s[..n - 1])
  {
    hide Close;
    var n := Close(s, 1).value;
    ClosesOnBrace(s, 1);
    CloseIsFirstBalance(s, 1);
    var body := s[..n - 1];
    assert s[..n] == body + "}";
    BalanceOfTwo(body, "}");
    assert Balance("}") == -1 by { assert "}"[1..] == []; }
    forall k | 0 <= k <= |body|
      ensures Balance(body[..k]) >= 0
    {
      assert body[..k] == s[..k];
    }
  }

  lemma {:induction false} HeaderCuts(s: string) returns (gap1: string, gap2: string)
    ensures var (tag, at) := Header(s);
      && s == gap1 + (if tag.Some? then tag.value else []) + gap2 + s[at..]
      && All(gap1, IsSpace) && All(gap2, IsSpace)
      && (if tag.Some? then IsName(tag.value) else gap2 == [])
  {
    hide Span;
    var j := Span(s, IsSpace);
    gap1 := s[..j];
    gap2 := [];
    if j < |s| && (IsAlpha(s[j]) || s[j] == '_') {
      var n := Span(s[j..], IsIdent);
      var e := j + n;
      gap2 := s[e..][..Span(s[e..], IsSpace)];
      assert s[j..e] == s[j..][..n];
      assert s[j..][0] == s[j];
      assert n > 0;
      assert s[j..e][0] == s[j];
    }
  }

  lemma {:induction false} HeaderOf(gap1: string, tag: Option<string>, gap2: string, inner: string)
    requires All(gap1, IsSpace) && All(gap2, IsSpace)
    requires if tag.Some? then gap1 != [] && IsName(tag.value) else gap2 == []
    ensures var name := if tag.Some? then tag.value else [];
      Header(gap1 + name + gap2 + ("{" + inner)) == (tag, |gap1 + name + gap2|)
  {
    hide Span, All;
    if tag.Some? {
      TaggedRead(gap1, tag.value, gap2, "{" + inner);
    } else {
      assert gap1 + [] + gap2 == gap1;
      SpanOf(gap1, "{" + inner, IsSpace);
    }
  }

  // A block is found exactly where one is written, with its tag and its body.
  lemma {:induction false} BlockExactly(glued: bool, s: string, tag: Option<string>, body: string, rest: string)
    ensures BlockAt(glued, s) == Some((tag, body, rest)) <==>
      !glued && exists gap1, gap2 :: IsEnum(s, gap1, tag, gap2, body, rest)
  {
    hide IsEnum, BlockAt;
    if BlockAt(glued, s) == Some((tag, body, rest)) {
      var gap1, gap2 := FoundIsEnum(glued, s);
    }
    if gap1, gap2 :| !glued && IsEnum(s, gap1, tag, gap2, body, rest) {
      EnumIsFound(s, gap1, tag, gap2, body, rest);
    }
  }

  lemma {:induction false} EnumIsFound(
      s: string, gap1: string, tag: Option<string>, gap2: string, body: string, rest: string)
    requires IsEnum(s, gap1, tag, gap2, body, rest)
    ensures BlockAt(false, s) == Some((tag, body, rest))
  {
    hide Span, All, Close, Header, IsName, BlockAt, Balanced;
    var header, inner := gap1 + (if tag.Some? then tag.value else []) + gap2, body + "}" + rest;
    var after := header + ("{" + inner);
    HeaderOf(gap1, tag, gap2, inner);
    BalancedCloses(body, rest);
    NotGlued(gap1, tag, gap2, inner);
    AfterEnum(s, after);
    BlockOf(false, s, after, tag, |header|);
    assert after[|header|] == '{' && after[|header| + 1..] == inner;
    assert inner[..|body|] == body && inner[|body| + 1..] == rest;
  }

  lemma AfterEnum(s: string, after: string)
    requires s == "enum" + after && after != [] && !IsIdent(after[0])
    ensures KeywordHere(false, s) && s[4..] == after
  {
  }

  lemma NotGlued(gap1: string, tag: Option<string>, gap2: string, inner: string)
    requires All(gap1, IsSpace) && All(gap2, IsSpace)
    requires if tag.Some? then gap1 != [] && IsName(tag.value) else gap2 == []
    ensures var name := if tag.Some? then tag.value else [];
      !IsIdent((gap1 + name + gap2 + ("{" + inner))[0])
  {
    if gap1 != [] { assert IsSpace(gap1[0]); }
  }

  // What a block was found from.
  lemma BlockParts(glued: bool, s: string) returns (tag: Option<string>, at: nat, inner: string, n: nat)
    requires BlockAt(glued, s).Some?
    ensures |s| >= 4 && KeywordHere(glued, s) && Header(s[4..]) == (tag, at) && at < |s[4..]| && s[4..][at] == '{'
    ensures inner == s[4..][at + 1..] && Close(inner, 1) == Some(n) && 0 < n <= |inner|
    ensures BlockAt(glued, s) == Some((tag, inner[..n - 1], inner[n..]))
  {
    hide Header, Close;
    tag, at := Header(s[4..]).0, Header(s[4..]).1;
    inner := s[4..][at + 1..];
    n := Close(inner, 1).value;
  }

  lemma {:induction false} FoundIsEnum(glued: bool, s: string) returns (gap1: string, gap2: string)
    requires BlockAt(glued, s).Some?
    ensures var (tag, body, rest) := BlockAt(glued, s).value;
      !glued && IsEnum(s, gap1, tag, gap2, body, rest)
  {
    hide Span, Close, Header, IsName, Balanced, All, KeywordHere, BlockAt;
    var tag, at, inner, n := BlockParts(glued, s);
    var after := s[4..];
    gap1, gap2 := HeaderCuts(after);
    ClosedIsBalanced(inner);
    KeywordStarts(glued, s);
    Reassembled(s, after, at, inner, n);
    if tag.Some? { TagNotGlued(s, after, gap1, tag.value, gap2, after[at..]); }
    assert s == "enum" + (gap1 + (if tag.Some? then tag.value else []) + gap2 + after[at..]);
  }

  lemma KeywordStarts(glued: bool, s: string)
    requires KeywordHere(glued, s)
    ensures !glued && KeywordHere(false, s) && |s| >= 4 && s[..4] == "enum"
  {
  }

  lemma Reassembled(s: string, after: string, at: nat, inner: string, n: nat)
    requires |s| >= 4 && s[..4] == "enum" && after == s[4..] && at < |after| && after[at] == '{'
    requires inner == after[at + 1..] && 0 < n <= |inner| && inner[n - 1] == '}'
    ensures s == "enum" + after && after[at..] == "{" + (inner[..n - 1] + "}" + inner[n..])
  {
  }

  // The keyword is a whole word, so a tag does not follow it at once.
  lemma TagNotGlued(s: string, after: string, gap1: string, tag: string, gap2: string, tail: string)
    requires KeywordHere(false, s) && after == s[4..] && IsName(tag) && after == gap1 + tag + gap2 + tail
    ensures gap1 != []
  {
    TagStarts(tag);
    HeadOf(gap1, tag, gap2, tail);
  }

  lemma HeadOf(a: string, b: string, c: string, d: string)
    requires b != []
    ensures (a + b + c + d)[0] == if a == [] then b[0] else a[0]
  {
  }

  lemma TagStarts(tag: string)
    requires IsName(tag)
    ensures IsIdent(tag[0])
  {
  }

  lemma {:induction false} EnumRead(e: EnumText, rest: string)
    requires ValidEnum(e)
    ensures Enums(false, EnumSource(e) + rest) ==
      Collect(e.tag, if BelowMax(Meaning(e.body)) then Some(Meaning(e.body)) else None, Enums(false, rest))
  {
    hide Span, All, BodyText, Close, ParseBody, Meaning, BelowMax, Header, HeaderText, ValidEnum, EnumSource;
    SourceParts(e, rest);
    var body := BodyText(e.body);
    var inner := body + "}" + rest;
    var after := HeaderText(e) + "{" + inner;
    EnumParts(HeaderText(e), body, rest);
    BodyMeans(e.body);
    HeaderRead(e, inner);
    AfterKeyword(e, inner);
    CloseOf(body, rest);
  }

  lemma SourceParts(e: EnumText, rest: string)
    requires ValidEnum(e)
    ensures e.body != [] && forall v :: v in e.body ==> ValidEnumerator(v)
    ensures EnumSource(e) + rest == ENUM + (HeaderText(e) + "{" + (BodyText(e.body) + "}" + rest))
  {
    hide BodyText, HeaderText, All;
  }

  lemma EnumParts(header: string, body: string, rest: string)
    ensures var inner := body + "}" + rest;
      var after := header + "{" + inner;
      && (ENUM + after)[4..] == after && StartsWith(ENUM + after, ENUM)
      && |ENUM + after| > 4 && (ENUM + after)[4] == after[0]
      && |header| < |after| && after[|header|] == '{' && after[|header| + 1..] == inner
      && inner[..|body|] == body && inner[|body| + 1..] == rest
  {
  }

  lemma AfterKeyword(e: EnumText, inner: string)
    requires ValidEnum(e)
    ensures !IsIdent((HeaderText(e) + "{" + inner)[0])
  {
    var s := HeaderText(e) + "{" + inner;
    if e.gap1 != [] {
      assert s[0] == e.gap1[0];
    } else {
      assert HeaderText(e) == [];
    }
  }

  /* Everything else in a header */

  // Text without enums: every `enum` keyword in it leads to something that is
  // not a brace, still inside the text, and its last character does not join
  // what follows. A leading character belongs to an identifier when `glued`.
  predicate Inert(glued: bool, f: string)
    decreases |f|
  {
    if f == [] then !glued
    else
      && Inert(IsIdent(f[0]), f[1..])
      && (KeywordHere(glued, f) ==> Header(f[4..]).1 < |f[4..]| && f[4..][Header(f[4..]).1] != '{')
  }

  lemma {:induction false} InertEnd(glued: bool, f: string)
    requires Inert(glued, f) && f != []
    ensures !IsIdent(f[|f| - 1])
    decreases |f|
  {
    if |f| > 1 { InertEnd(IsIdent(f[0]), f[1..]); }
  }

  lemma {:induction false} SpanStable(a: string, b: string, p: char -> bool)
    requires Span(a, p) < |a|
    ensures Span(a + b, p) == Span(a, p)
  {
    var n := Span(a, p);
    assert a + b == a[..n] + (a[n..] + b);
    SpanOf(a[..n], a[n..] + b, p);
  }

  lemma {:induction false} HeaderStable(a: string, b: string)
    requires Header(a).1 < |a|
    ensures Header(a + b) == Header(a)
  {
    hide Span, All;
    var j := Span(a, IsSpace);
    if j < |a| {
      SpanStable(a, b, IsSpace);
      assert (a + b)[j] == a[j];
      if IsAlpha(a[j]) || a[j] == '_' {
        assert (a + b)[j..] == a[j..] + b;
        var e := j + Span(a[j..], IsIdent);
        if e < |a| {
          SpanStable(a[j..], b, IsIdent);
          assert (a + b)[e..] == a[e..] + b && (a + b)[j..e] == a[j..e];
          SpanStable(a[e..], b, IsSpace);
        }
      }
    }
  }

  lemma {:induction false} KeywordStable(glued: bool, f: string, rest: string)
    requires f != [] && !IsIdent(f[|f| - 1])
    ensures KeywordHere(glued, f + rest) <==> KeywordHere(glued, f)
    ensures KeywordHere(glued, f) ==> |f| > 4
  {
    var s := f + rest;
    if |f| > 4 {
      assert s[..4] == f[..4] && s[4] == f[4];
    } else if |s| >= 4 && |f| <= 4 {
      assert s[..4][|f| - 1] == f[|f| - 1];
      assert forall c :: c in ENUM ==> IsIdent(c);
    }
  }

  lemma {:induction false} FillerSkipped(glued: bool, f: string, rest: string)
    requires Inert(glued, f)
    ensures Enums(glued, f + rest) == Enums(false, rest)
    decreases |f|
  {
    hide Header, Enums, KeywordHere;
    if f == [] {
      assert f + rest == rest;
    } else {
      var s := f + rest;
      assert s[1..] == f[1..] + rest && s[0] == f[0];
      FillerSkipped(IsIdent(f[0]), f[1..], rest);
      InertEnd(glued, f);
      KeywordStable(glued, f, rest);
      if KeywordHere(glued, f) {
        assert s[4..] == f[4..] + rest;
        HeaderStable(f[4..], rest);
      }
      SteppedOver(glued, s);
    }
  }

  // A character at which no block starts.
  lemma SteppedOver(glued: bool, s: string)
    requires s != []
    requires KeywordHere(glued, s) ==>
      |s| > 4 && Header(s[4..]).1 < |s[4..]| && s[4..][Header(s[4..]).1] != '{'
    ensures Enums(glued, s) == Enums(IsIdent(s[0]), s[1..])
  {
    hide Header, Close, Collect, ParseBody;
  }

  /* Whole headers */

  datatype Item = Item(e: EnumText, filler: string)

  predicate ValidItem(item: Item) {
    ValidEnum(item.e) && Inert(false, item.filler)
  }

  function Source(items: seq<Item>): string
    requires forall item :: item in items ==> ValidItem(item)
  {
    if items == [] then []
    else
      assert items[0] in items && ValidItem(items[0]);
      EnumSource(items[0].e) + (items[0].filler + Source(items[1..]))
  }

  // An enum without constants is no block.
  function BlockIf(tag: Option<string>, vs: seq<Variant>): seq<EnumBlock> {
    if vs == [] then [] else [EnumBlock(tag, vs)]
  }

  function Blocks(items: seq<Item>): seq<EnumBlock> {
    if items == [] then []
    else BlockIf(items[0].e.tag, Meaning(items[0].e.body)) + Blocks(items[1..])
  }

  predicate AllBelowMax(items: seq<Item>) {
    forall item :: item in items ==> BelowMax(Meaning(item.e.body))
  }

  // One item in front of the blocks of the rest.
  lemma {:induction false} BlocksCons(items: seq<Item>)
    requires items != []
    ensures AllBelowMax(items) <==> BelowMax(Meaning(items[0].e.body)) && AllBelowMax(items[1..])
    ensures var vs := Meaning(items[0].e.body);
      Blocks(items) == if vs == [] then Blocks(items[1..]) else [EnumBlock(items[0].e.tag, vs)] + Blocks(items[1..])
  {
    assert items == [items[0]] + items[1..];
    assert forall item :: item in items <==> item == items[0] || item in items[1..];
    assert [] + Blocks(items[1..]) == Blocks(items[1..]);
  }

  lemma {:induction false} SourceRead(items: seq<Item>)
    requires forall item :: item in items ==> ValidItem(item)
    ensures Enums(false, Source(items)) == if AllBelowMax(items) then Some(Blocks(items)) else None
  {
    if items != [] {
      hide Meaning, BelowMax, EnumSource, Inert, ValidEnum, Enums, AllBelowMax, Blocks;
      var rest := items[1..];
      assert items[0] in items && ValidItem(items[0]);
      assert forall item :: item in rest ==> item in items;
      SourceRead(rest);
      FillerSkipped(false, items[0].filler, Source(rest));
      EnumRead(items[0].e, items[0].filler + Source(rest));
      BlocksCons(items);
    }
  }

  // The blocks of the same enums in C.
  function CBlocks(items: seq<Item>): seq<EnumBlock> {
    if items == [] then []
    else BlockIf(items[0].e.tag, CMeaning(items[0].e.body)) + CBlocks(items[1..])
  }

  // The script makes of every enumerator exactly what C makes of it.
  predicate AllRight(items: seq<Item>) {
    forall item :: item in items ==> BodyRight(item.e.body)
  }

  predicate BodyRight(body: seq<Enumerator>) {
    forall k :: 0 <= k < |body| ==> RightAt(body, k)
  }

  predicate AllModest(items: seq<Item>) {
    forall item :: item in items ==> forall e :: e in item.e.body ==> Modest(e)
  }

  predicate AllTelling(items: seq<Item>) {
    forall item :: item in items ==> forall e :: e in item.e.body ==> Telling(e)
  }

  lemma {:induction false} RightBlocks(items: seq<Item>)
    requires AllRight(items)
    ensures Blocks(items) == CBlocks(items)
  {
    if items != [] {
      hide Meaning, CMeaning, RightAt, Blocks, CBlocks;
      BlocksHead(items);
      assert items[0] in items && forall item :: item in items[1..] ==> item in items;
      assert BodyRight(items[0].e.body);
      RightIsEnough(items[0].e.body);
      RightBlocks(items[1..]);
    }
  }

  lemma BlocksHead(items: seq<Item>)
    requires items != []
    ensures Blocks(items) == BlockIf(items[0].e.tag, Meaning(items[0].e.body)) + Blocks(items[1..])
    ensures CBlocks(items) == BlockIf(items[0].e.tag, CMeaning(items[0].e.body)) + CBlocks(items[1..])
  {
    hide Meaning, CMeaning, BlockIf;
  }

  lemma ModestHead(items: seq<Item>)
    requires items != [] && AllModest(items)
    ensures AllModest(items[1..]) && forall e :: e in items[0].e.body ==> Modest(e)
  {
    hide Modest;
    assert items[0] in items && forall item :: item in items[1..] ==> item in items;
  }

  lemma {:induction false} FewerBlocks(items: seq<Item>)
    requires AllModest(items)
    ensures |Blocks(items)| <= |CBlocks(items)|
  {
    if items != [] {
      hide Meaning, CMeaning, Modest, AllModest, Blocks, CBlocks;
      ModestHead(items);
      BlocksHead(items);
      MeaningIsShorter(items[0].e.body);
      FewerBlocks(items[1..]);
    }
  }

  lemma BodyIsRight(body: seq<Enumerator>)
    requires (forall e :: e in body ==> Modest(e)) && Meaning(body) == CMeaning(body)
    ensures BodyRight(body)
  {
    hide Meaning, CMeaning, Modest, RightAt;
    RightIsNeeded(body);
  }

  lemma RightCons(items: seq<Item>)
    requires items != [] && BodyRight(items[0].e.body) && AllRight(items[1..])
    ensures AllRight(items)
  {
    hide BodyRight;
    assert items == [items[0]] + items[1..];
  }

  lemma {:induction false} ModestBlocksRight(items: seq<Item>)
    requires AllModest(items) && Blocks(items) == CBlocks(items)
    ensures AllRight(items)
  {
    if items != [] {
      hide Meaning, CMeaning, BodyRight, Modest, AllModest, AllRight, Blocks, CBlocks, BlockIf;
      var body, rest := items[0].e.body, items[1..];
      BlocksHead(items);
      ModestHead(items);
      MeaningIsShorter(body);
      FewerBlocks(rest);
      HeadsAgree(items[0].e.tag, Meaning(body), CMeaning(body), Blocks(rest), CBlocks(rest));
      BodyIsRight(body);
      ModestBlocksRight(rest);
      RightCons(items);
    }
  }

  lemma {:induction false} BlockAppears(items: seq<Item>, item: Item)
    requires item in items && Meaning(item.e.body) != []
    ensures EnumBlock(item.e.tag, Meaning(item.e.body)) in Blocks(items)
  {
    hide Meaning;
    if item != items[0] {
      assert item in items[1..];
      BlockAppears(items[1..], item);
    }
  }

  // C's blocks are those of the items.
  lemma {:induction false} CBlockOf(items: seq<Item>, b: EnumBlock)
    requires b in CBlocks(items)
    ensures exists item :: item in items && b.variants == CMeaning(item.e.body)
  {
    hide CMeaning;
    var vs := CMeaning(items[0].e.body);
    if vs != [] && b == EnumBlock(items[0].e.tag, vs) {
      assert items[0] in items;
    } else {
      CBlockOf(items[1..], b);
      var item :| item in items[1..] && b.variants == CMeaning(item.e.body);
      assert item in items;
    }
  }

  // A block with a constant that C could not name is not C's.
  lemma {:induction false} BadBlockShows(items: seq<Item>, item: Item, e: Enumerator, n: Entry)
    requires forall item :: item in items ==> ValidItem(item)
    requires item in items && e in item.e.body && n in Script(e) && BadlyNamed(n)
    ensures Blocks(items) != CBlocks(items)
  {
    hide Script, Listing, IsName, Inert, ValidEnumerator, CMeaning, Blocks, CBlocks;
    var body := item.e.body;
    assert ValidItem(item);
    var k :| 0 <= k < |body| && body[k] == e;
    var v := BadNameIn(body, k, n);
    BlockAppears(items, item);
    var b := EnumBlock(item.e.tag, Meaning(body));
    if b in CBlocks(items) {
      CBlockOf(items, b);
      var other :| other in items && b.variants == CMeaning(other.e.body);
      assert ValidItem(other);
      BodyNamed(other.e);
      CNamesAreNames(other.e.body);
    }
  }

  lemma BodyNamed(e: EnumText)
    requires ValidEnum(e)
    ensures forall x :: x in e.body ==> Named(x)
  {
  }

  lemma {:induction false} BlocksAgreeExactly(items: seq<Item>)
    requires (forall item :: item in items ==> ValidItem(item)) && AllTelling(items)
    ensures Blocks(items) == CBlocks(items) <==> AllRight(items)
  {
    hide Blocks, CBlocks, ValidItem, Script, BadlyNamed, Count;
    if AllRight(items) { RightBlocks(items); }
    if Blocks(items) == CBlocks(items) {
      forall item, e | item in items && e in item.e.body
        ensures Modest(e)
      {
        assert Telling(e);
        if exists n :: n in Script(e) && BadlyNamed(n) {
          var n :| n in Script(e) && BadlyNamed(n);
          BadBlockShows(items, item, e, n);
        }
      }
      ModestBlocksRight(items);
    }
  }

  lemma HeadsAgree(tag: Option<string>, vs: seq<Variant>, cs: seq<Variant>, rest: seq<EnumBlock>, crest: seq<EnumBlock>)
    requires |vs| <= |cs| && |rest| <= |crest|
    ensures BlockIf(tag, vs) + rest == BlockIf(tag, cs) + crest <==> vs == cs && rest == crest
  {
    var a, b := BlockIf(tag, vs), BlockIf(tag, cs);
    if a + rest == b + crest {
      assert |a| + |rest| == |b| + |crest|;
      assert a == (a + rest)[..|a|] && b == (b + crest)[..|b|];
      assert rest == (a + rest)[|a|..] && crest == (b + crest)[|b|..];
    }
  }

  // What is extracted from the text of `items`: its tags and the constants the
  // script makes of them, in order, empty ones left out, and nothing if and only
  // if some constant is the largest 64-bit value. These are C's constants if and
  // only if the script makes of every enumerator exactly what C does.
  ghost predicate Extracts(items: seq<Item>, read: Option<seq<EnumBlock>>) {
    && read == (if AllBelowMax(items) then Some(Blocks(items)) else None)
    && (AllTelling(items) ==> (read == Some(CBlocks(items)) <==> AllBelowMax(items) && AllRight(items)))
  }

  // Enums written with any spacing, values and tags, with any enum-free text
  // around them and comments anywhere, are extracted.
  lemma {:induction false} EnumRoundTrip(filler: string, items: seq<Item>, pieces: seq<Piece>)
    requires Inert(false, filler) && forall item :: item in items ==> ValidItem(item)
    requires WellSpelled(pieces) && Plain(pieces) == filler + Source(items)
    ensures Extracts(items, Enums(false, Strip(Decorated(pieces))))
  {
    hide Blocks, CBlocks, AllBelowMax, AllRight, AllTelling, Enums, Strip;
    StripRemovesComments(pieces);
    FillerSkipped(false, filler, Source(items));
    SourceRead(items);
    if AllTelling(items) { BlocksAgreeExactly(items); }
  }

  // The way the build script calls it for its inventory: the declarations of a
  // header with comments anywhere and perhaps an implementation behind its
  // guard, stripped a second time.
  lemma {:induction false} InventoryRoundTrip(
      filler: string, items: seq<Item>, implementation: Option<string>, pieces: seq<Piece>)
    requires Inert(false, filler) && forall item :: item in items ==> ValidItem(item)
    requires WellSpelled(pieces) && Plain(pieces) == filler + Source(items) + Guarded(implementation)
    requires NoGuard(filler + Source(items))
    ensures Extracts(items, Enums(false, Strip(Declarations(Decorated(pieces)))))
  {
    hide Blocks, CBlocks, AllBelowMax, AllRight, AllTelling, Enums, Strip;
    DeclarationsAreStripped(Decorated(pieces));
    DeclarationsOfHeader(pieces, filler + Source(items), implementation);
    FillerSkipped(false, filler, Source(items));
    SourceRead(items);
    if AllTelling(items) { BlocksAgreeExactly(items); }
  }
}
