// Enumerator lists of which the build script makes something else than C.
module CEnumCases {
  import opened Outcomes
  import opened CText
  import opened CIntegers
  import opened CEnums
  import opened CEnumValues
  import opened CEnumRoundTrip

  lemma NamedPiece(left: string, body: string, right: string)
    requires All(left, IsBlank) && Solid(body) && All(right, IsBlank) && '=' !in body
    ensures EntryOf(left + body + right) == Counted(body)
  {
    TrimOf(left, body, right);
  }

  // A text without a comma makes one entry, one with a comma two.
  lemma OnePiece(raw: string, inC: Option<Constant>)
    requires ',' !in raw
    ensures Script(Other(raw, inC)) == [EntryOf(raw)]
  {
    SplitOfNone(raw, ',');
  }

  lemma TwoPieces(a: string, b: string, inC: Option<Constant>)
    requires ',' !in a && ',' !in b
    ensures Script(Other(a + "," + b, inC)) == [EntryOf(a), EntryOf(b)]
  {
    SplitOfTwo(a, b, ',');
    SplitOfNone(a, ',');
    SplitOfNone(b, ',');
  }

  lemma ListingOfOne(before: seq<Variant>, entry: Entry)
    ensures Listing(before, [entry]) == Added(before, entry)
  {
    assert [entry][..0] == [] && Listing(before, []) == before;
  }

  lemma ListingOfTwo(before: seq<Variant>, a: Entry, b: Entry)
    ensures Listing(before, [a, b]) == Added(Added(before, a), b)
  {
    assert [a, b][..1] == [a];
    ListingOfOne(before, a);
  }

  lemma TwoEnumerators(a: Enumerator, b: Enumerator)
    ensures Meaning([a, b]) == Listing(Listing([], Script(a)), Script(b))
    ensures InC(a).Some? && InC(b).Some? ==>
      var first := Variant(InC(a).value.name, Given(InC(a).value, 0));
      CMeaning([a, b]) == [first, Variant(InC(b).value.name, Given(InC(b).value, first.value + 1))]
  {
    hide Script, Listing, InC;
    assert [a, b][..1] == [a] && [a][..0] == [];
    assert Meaning([a]) == Listing([], Script(a));
    if InC(a).Some? { assert CMeaning([a]) == [Variant(InC(a).value.name, Given(InC(a).value, 0))]; }
  }

  // `enum { A = 1 << 2, B }`: the script leaves A out and makes B 0, where C has
  // 4 and 5.
  lemma ShiftIsNotRead() returns (es: seq<Enumerator>)
    ensures es == [Other("A = 1 << 2", Some(Constant("A", Some(4)))), Implicit(" ", "B", "")]
    ensures Meaning(es) == [Variant("B", 0)]
    ensures CMeaning(es) == [Variant("A", 4), Variant("B", 5)]
  {
    var a, b := Other("A = 1 << 2", Some(Constant("A", Some(4)))), Implicit(" ", "B", "");
    hide Listing, EntryOf, ParseCInteger, Trim, Find, Split, Meaning, CMeaning;
    es := [a, b];
    ShiftText();
    OnePiece(a.raw, a.inC);
    assert a.raw == "" + ("A" + " " + "=" + " " + "1 << 2") + "";
    ValuedPiece("", "A", " ", " ", "1 << 2", "");
    ListingOfOne([], Skip);
    ListingOfOne([], Counted("B"));
    TwoEnumerators(a, b);
  }

  lemma ValuedPiece(left: string, name: string, before: string, after: string, text: string, right: string)
    requires All(left, IsBlank) && IsName(name) && All(before, IsBlank)
    requires All(after, IsBlank) && Solid(text) && All(right, IsBlank)
    ensures EntryOf(left + (name + before + "=" + after + text) + right) ==
      if ParseCInteger(text).Some? then Valued(name, ParseCInteger(text).value) else Skip
  {
    hide Trim, Find, ParseCInteger, All, IsName;
    ReadParts(left, name, before, after, text, right);
  }

  lemma ShiftText()
    ensures ParseCInteger("1 << 2") == None
  {
    var s := "1 << 2";
    assert s[..|s| - 1][|s| - 2] == ' ';
    assert DigitOf(' ', 10) == None;
    assert Magnitude(s[..|s| - 1], 10) == None;
    assert Magnitude(s, 10) == None;
  }

  // `enum { A = F(1, 2), B }`: the script takes what follows the comma for a
  // constant of its own, whatever A is in C.
  lemma CommaInvents(value: int) returns (es: seq<Enumerator>)
    ensures es == [Other("A = F(1, 2)", Some(Constant("A", Some(value)))), Implicit(" ", "B", "")]
    ensures Meaning(es) == [Variant("2)", 0), Variant("B", 1)]
    ensures CMeaning(es) == [Variant("A", value), Variant("B", value + 1)]
  {
    var a, b := Other("A = F(1, 2)", Some(Constant("A", Some(value)))), Implicit(" ", "B", "");
    hide Listing, EntryOf, ParseCInteger, Trim, Find, Split, Meaning, CMeaning;
    es := [a, b];
    CallText();
    var head, tail := "" + ("A" + " " + "=" + " " + "F(1") + "", " " + "2)" + "";
    assert a.raw == head + "," + tail;
    TwoPieces(head, tail, a.inC);
    ValuedPiece("", "A", " ", " ", "F(1", "");
    NamedPiece(" ", "2)", "");
    ListingOfTwo([], Skip, Counted("2)"));
    assert [] + [Variant("2)", 0)] == [Variant("2)", 0)];
    ListingOfOne([Variant("2)", 0)], Counted("B"));
    TwoEnumerators(a, b);
  }

  lemma CallText()
    ensures ParseCInteger("F(1") == None
  {
    var s := "F(1";
    assert s[..1] == "F" && s[..2] == "F(" && "F("[..1] == "F" && "F"[..0] == "";
    assert Magnitude("F", 10) == None && Magnitude("F(", 10) == None && Magnitude(s, 10) == None;
  }

  const DEFINE_LINE := "#define N 7\n"

  // `enum { A = 1,` and a line `#define N 7` before `B }`: the line becomes part
  // of the name.
  lemma DirectiveInName() returns (es: seq<Enumerator>)
    ensures es == [
      Explicit("", "A", " ", " ", Dec(1, ""), ""), Other("\n" + DEFINE_LINE + "B", Some(Constant("B", None)))]
    ensures Meaning(es) == [Variant("A", 1), Variant(DEFINE_LINE + "B", 2)]
    ensures CMeaning(es) == [Variant("A", 1), Variant("B", 2)]
  {
    var a, b := Explicit("", "A", " ", " ", Dec(1, ""), ""), Other("\n" + DEFINE_LINE + "B", Some(Constant("B", None)));
    hide Listing, Script, EntryOf, Trim, Split, Meaning, CMeaning, DEFINE_LINE;
    es := [a, b];
    DirectiveEntry(b);
    OneEntry(a);
    ListingOfOne([], Valued("A", 1));
    assert [] + [Variant("A", 1)] == [Variant("A", 1)];
    ListingOfOne([Variant("A", 1)], Counted(DEFINE_LINE + "B"));
    TwoEnumerators(a, b);
  }

  lemma OneEntry(a: Enumerator)
    requires a == Explicit("", "A", " ", " ", Dec(1, ""), "")
    ensures Script(a) == [Valued("A", 1)]
  {
  }

  lemma DirectiveEntry(b: Enumerator)
    requires b == Other("\n" + DEFINE_LINE + "B", Some(Constant("B", None)))
    ensures Script(b) == [Counted(DEFINE_LINE + "B")]
  {
    hide EntryOf, Split;
    assert ',' !in DEFINE_LINE && '=' !in DEFINE_LINE;
    OnePiece(b.raw, b.inC);
    assert b.raw == "\n" + (DEFINE_LINE + "B") + "";
    NamedPiece("\n", DEFINE_LINE + "B", "");
  }

  const LARGEST := "9223372036854775807"

  // `enum { A = 9223372036854775807 }` stops the script.
  lemma LargestValueStops()
    ensures Enums(false, "enum {" + (" A = " + LARGEST + " ") + "}") == None
  {
    hide Enums, Meaning, LiteralText, BodyText, ParseCInteger, Spelled, Collect, ValidEnumerator, LARGEST;
    var a := Explicit(" ", "A", " ", " ", Dec(I64_MAX, ""), " ");
    var e := EnumText(" ", None, "", [a]);
    LargestText(a);
    LargestMeaning(a);
    LargestSource(e);
    EnumRead(e, "");
    assert Variant("A", I64_MAX) in Meaning([a]);
    StopsHere(None, Enums(false, ""));
  }

  lemma LargestSource(e: EnumText)
    requires e.gap1 == " " && e.tag == None && e.gap2 == "" && ValidEnum(e)
    ensures EnumSource(e) + "" == "enum {" + BodyText(e.body) + "}"
  {
    hide BodyText, ValidEnumerator;
    assert ENUM + HeaderText(e) + "{" == "enum {";
  }

  lemma StopsHere(tag: Option<string>, rest: Option<seq<EnumBlock>>)
    ensures Collect(tag, None, rest) == None
  {
  }

  lemma LargestMeaning(a: Enumerator)
    requires a == Explicit(" ", "A", " ", " ", Dec(I64_MAX, ""), " ")
    ensures Meaning([a]) == [Variant("A", I64_MAX)]
  {
    assert [a][..0] == [];
    ListingOfOne([], Valued("A", I64_MAX));
  }

  lemma LargestText(a: Enumerator)
    requires a == Explicit(" ", "A", " ", " ", Dec(I64_MAX, ""), " ")
    ensures ValidEnumerator(a) && BodyText([a]) == " A = " + LARGEST + " "
  {
    hide Digits, LARGEST;
    LargestDigits();
    assert LiteralText(a.literal) == LARGEST + "" == LARGEST;
    assert " " + ("A" + " " + "=" + " " + LARGEST) + " " == " A = " + LARGEST + " ";
    assert SpelledAll([a]) == [Spelled(a)];
  }

  lemma MoreDigits(n: nat, d: nat)
    requires n > 0 && d < 10
    ensures Digits(10 * n + d, 10, false) == Digits(n, 10, false) + ['0' + d as char]
  {
    assert (10 * n + d) / 10 == n && (10 * n + d) % 10 == d;
  }

  lemma LargestDigits()
    ensures Digits(I64_MAX, 10, false) == LARGEST
  {
    assert Digits(9, 10, false) == "9";
    hide Digits;
    MoreDigits(9, 2);
    MoreDigits(92, 2);
    MoreDigits(922, 3);
    MoreDigits(9223, 3);
    MoreDigits(92233, 7);
    MoreDigits(922337, 2);
    MoreDigits(9223372, 0);
    MoreDigits(92233720, 3);
    MoreDigits(922337203, 6);
    MoreDigits(9223372036, 8);
    MoreDigits(92233720368, 5);
    MoreDigits(922337203685, 4);
    MoreDigits(9223372036854, 7);
    MoreDigits(92233720368547, 7);
    MoreDigits(922337203685477, 5);
    MoreDigits(9223372036854775, 8);
    MoreDigits(92233720368547758, 0);
    MoreDigits(922337203685477580, 7);
  }
}
