// The values of enumeration constants: what C makes of an enumerator list, what
// the build script makes of it, and exactly when the two agree.
module CEnumValues {
  import opened Outcomes
  import opened CText
  import opened CIntegers
  import opened CEnums

  // A constant in C, with the value it is given, if it is given one.
  datatype Constant = Constant(name: string, given: Option<int>)

  // One element of an enumerator list with its spacing. `Gap` is an element with
  // nothing in it, as after a trailing comma. `Other` is any other text up to the
  // comma that ends the element in C: values that are not decimal or hexadecimal
  // literals, commas inside values, preprocessor lines; `inC` is what C makes of it.
  datatype Enumerator =
    | Gap(pad: string)
    | Implicit(left: string, name: string, right: string)
    | Explicit(left: string, name: string, before: string, after: string, literal: Literal, right: string)
    | Other(raw: string, inC: Option<Constant>)

  predicate IsName(s: string) {
    s != [] && All(s, IsIdent) && !IsDigit(s[0])
  }

  /* In C */

  function InC(e: Enumerator): Option<Constant> {
    match e
    case Gap(_) => None
    case Implicit(_, name, _) => Some(Constant(name, None))
    case Explicit(_, name, _, _, literal, _) => Some(Constant(name, Some(literal.value)))
    case Other(_, inC) => inC
  }

  // Section 6.7.2.2 of ISO/IEC 9899:2011: a constant has the value it is given;
  // without one the first constant is 0 and any other is one more than the
  // constant before it.
  function CMeaning(es: seq<Enumerator>): seq<Variant> {
    if es == [] then []
    else
      var before := CMeaning(es[..|es| - 1]);
      match InC(es[|es| - 1])
      case None => before
      case Some(c) => before + [Variant(c.name, Given(c, Next(before)))]
  }

  function Given(c: Constant, next: int): int {
    if c.given.Some? then c.given.value else next
  }

  // One more than the last constant.
  function Next(before: seq<Variant>): int {
    if before == [] then 0 else before[|before| - 1].value + 1
  }

  /* In the build script */

  // What becomes of the text between two commas.
  datatype Entry = Skip | Counted(name: string) | Valued(name: string, value: int)

  function EntryOf(piece: string): Entry {
    var raw := Trim(piece);
    if raw == [] then Skip
    else
      match Find(raw, '=')
      case None => Counted(raw)
      case Some(eq) =>
        match ParseCInteger(Trim(raw[eq + 1..]))
        case None => Skip
        case Some(v) => Valued(Trim(raw[..eq]), v)
  }

  predicate Assigns(p: string, name: string, text: string) {
    p == name + "=" + text && '=' !in name
  }

  // Trimmed, a piece is nothing, a name, or split at its first equals sign into
  // a name and the text of a value.
  lemma {:induction false} EntryExactly(piece: string)
    ensures Trim(piece) == [] ==> EntryOf(piece) == Skip
    ensures Trim(piece) != [] && '=' !in Trim(piece) ==> EntryOf(piece) == Counted(Trim(piece))
    ensures '=' in Trim(piece) ==> exists name, text :: Assigns(Trim(piece), name, text)
    ensures forall name, text :: Assigns(Trim(piece), name, text) ==>
      EntryOf(piece) ==
        if ParseCInteger(text).None? then Skip else Valued(Trim(name), ParseCInteger(text).value)
  {
    hide Trim, ParseCInteger;
    var p := Trim(piece);
    if '=' in p {
      var i := Find(p, '=').value;
      assert Assigns(p, p[..i], p[i + 1..]);
    }
    forall name, text | Assigns(p, name, text)
      ensures EntryOf(piece) ==
        if ParseCInteger(text).None? then Skip else Valued(Trim(name), ParseCInteger(text).value)
    {
      FindOf(name, '=', text);
      assert p == name + ['='] + text && p[..|name|] == name && p[|name| + 1..] == text;
      ParseTrimmed(text);
    }
  }

  lemma ParseTrimmed(text: string)
    ensures ParseCInteger(Trim(text)) == ParseCInteger(text)
  {
    hide TrimStart, TrimEnd;
    var left, right := TrimCuts(text);
    assert [] + Trim(text) + [] == Trim(text);
    TrimOf([], Trim(text), []);
  }

  function EntriesOf(pieces: seq<string>): (entries: seq<Entry>)
    ensures |entries| == |pieces|
  {
    seq(|pieces|, i requires 0 <= i < |pieces| => EntryOf(pieces[i]))
  }

  function Script(e: Enumerator): seq<Entry> {
    match e
    case Gap(_) => [Skip]
    case Implicit(_, name, _) => [Counted(name)]
    case Explicit(_, name, _, _, literal, _) => [Valued(name, literal.value)]
    case Other(raw, _) => EntriesOf(Split(raw, ','))
  }

  // A constant without a value is one more than the last one collected, and what
  // is skipped does not move the counter.
  function Added(done: seq<Variant>, entry: Entry): seq<Variant> {
    match entry
    case Skip => done
    case Counted(name) => done + [Variant(name, Next(done))]
    case Valued(name, value) => done + [Variant(name, value)]
  }

  // The constants collected after `before`.
  function Listing(before: seq<Variant>, entries: seq<Entry>): seq<Variant> {
    if entries == [] then before
    else Added(Listing(before, entries[..|entries| - 1]), entries[|entries| - 1])
  }

  function Meaning(es: seq<Enumerator>): seq<Variant> {
    if es == [] then [] else Listing(Meaning(es[..|es| - 1]), Script(es[|es| - 1]))
  }

  lemma ListingSnoc(before: seq<Variant>, entries: seq<Entry>, entry: Entry)
    ensures Listing(before, entries + [entry]) == Added(Listing(before, entries), entry)
  {
    assert (entries + [entry])[..|entries|] == entries;
  }

  lemma {:induction false} ListingAppend(before: seq<Variant>, a: seq<Entry>, b: seq<Entry>)
    ensures Listing(before, a + b) == Listing(Listing(before, a), b)
  {
    if b == [] {
      assert a + b == a;
    } else {
      var n := |b| - 1;
      ListingAppend(before, a, b[..n]);
      ListingSnoc(before, a + b[..n], b[n]);
      ListingSnoc(Listing(before, a), b[..n], b[n]);
      assert a + b == a + b[..n] + [b[n]] && b == b[..n] + [b[n]];
    }
  }

  lemma {:induction false} ListingExtends(before: seq<Variant>, entries: seq<Entry>)
    ensures before <= Listing(before, entries)
  {
    if entries != [] { ListingExtends(before, entries[..|entries| - 1]); }
  }

  lemma {:induction false} MeaningExtends(es: seq<Enumerator>, k: nat)
    requires k <= |es|
    ensures Meaning(es[..k]) <= Meaning(es) && CMeaning(es[..k]) <= CMeaning(es)
  {
    if k == |es| {
      assert es[..k] == es;
    } else {
      var init := es[..|es| - 1];
      MeaningExtends(init, k);
      assert init[..k] == es[..k];
      ListingExtends(Meaning(init), Script(es[|es| - 1]));
    }
  }

  // How many constants some entries make.
  function Count(entries: seq<Entry>): nat {
    if entries == [] then 0
    else Count(entries[..|entries| - 1]) + if entries[|entries| - 1].Skip? then 0 else 1
  }

  lemma {:induction false} ListingLength(before: seq<Variant>, entries: seq<Entry>)
    ensures |Listing(before, entries)| == |before| + Count(entries)
  {
    if entries != [] { ListingLength(before, entries[..|entries| - 1]); }
  }

  /* When the counters agree */

  // The script counts it exactly as C does.
  predicate Regular(e: Enumerator) {
    && (forall n :: n in Script(e) ==> !n.Valued?)
    && match InC(e)
       case None => Count(Script(e)) == 0
       case Some(c) => Count(Script(e)) == 1 && c.given.None?
  }

  function LastIrregular(es: seq<Enumerator>): (j: Option<nat>)
    ensures j.Some? ==> j.value < |es|
  {
    if es == [] then None
    else if !Regular(es[|es| - 1]) then Some(|es| - 1)
    else LastIrregular(es[..|es| - 1])
  }

  // After it the script goes on from where C does.
  predicate Harmless(es: seq<Enumerator>, j: nat)
    requires j < |es|
  {
    var after := Next(Listing(Meaning(es[..j]), Script(es[j])));
    match InC(es[j])
    case None => after == Next(CMeaning(es[..j]))
    case Some(c) => after == 1 + Given(c, Next(CMeaning(es[..j])))
  }

  lemma {:induction false} CountedOnly(before: seq<Variant>, entries: seq<Entry>)
    requires forall n :: n in entries ==> !n.Valued?
    ensures Next(Listing(before, entries)) == Next(before) + Count(entries)
  {
    if entries != [] {
      var init := entries[..|entries| - 1];
      assert entries[|entries| - 1] in entries && forall n :: n in init ==> n in entries;
      CountedOnly(before, init);
    }
  }

  // After `es` the script counts on from the value C does if and only if all of
  // them were regular, or the last irregular one is harmless.
  lemma {:induction false} CountersAgreeExactly(es: seq<Enumerator>)
    ensures Next(Meaning(es)) == Next(CMeaning(es)) <==>
      LastIrregular(es).None? || Harmless(es, LastIrregular(es).value)
  {
    hide Script, InC, Listing, Count;
    if es != [] {
      var init, e := es[..|es| - 1], es[|es| - 1];
      CountersAgreeExactly(init);
      if Regular(e) {
        CountedOnly(Meaning(init), Script(e));
        if LastIrregular(init).Some? {
          var j := LastIrregular(init).value;
          assert init[..j] == es[..j];
        }
      }
    }
  }

  // The one constant that some entries make.
  function Only(entries: seq<Entry>): (entry: Entry)
    requires Count(entries) == 1
    ensures !entry.Skip? && entry in entries
  {
    var n := |entries| - 1;
    if entries[n].Skip? then Only(entries[..n]) else entries[n]
  }

  lemma {:induction false} ListingOnly(before: seq<Variant>, entries: seq<Entry>)
    requires Count(entries) <= 1
    ensures Listing(before, entries) ==
      if Count(entries) == 0 then before
      else before + [Variant(Only(entries).name, if Only(entries).Valued? then Only(entries).value else Next(before))]
  {
    if entries != [] { ListingOnly(before, entries[..|entries| - 1]); }
  }

  // A constant has its C value if and only if the value read is the one given;
  // one that is counted, if and only if the counters agree before it.
  lemma {:induction false} ConstantAgreesExactly(es: seq<Enumerator>, k: nat)
    requires k < |es| && Count(Script(es[k])) == 1 && InC(es[k]).Some?
    ensures var i, j := |Meaning(es[..k])|, |CMeaning(es[..k])|;
      var entry, c := Only(Script(es[k])), InC(es[k]).value;
      && i < |Meaning(es)| && Meaning(es)[i].name == entry.name
      && j < |CMeaning(es)| && CMeaning(es)[j].name == c.name
      && (Meaning(es)[i].value == CMeaning(es)[j].value <==>
          if entry.Valued? then entry.value == Given(c, Next(CMeaning(es[..k])))
          else if c.given.Some? then Next(Meaning(es[..k])) == c.given.value
          else LastIrregular(es[..k]).None? || Harmless(es[..k], LastIrregular(es[..k]).value))
  {
    hide Script, Listing, Harmless, LastIrregular, Count;
    var upto := es[..k + 1];
    assert upto[..k] == es[..k];
    MeaningExtends(es, k + 1);
    ListingOnly(Meaning(es[..k]), Script(es[k]));
    CountersAgreeExactly(es[..k]);
    var i, j := |Meaning(es[..k])|, |CMeaning(es[..k])|;
    assert Meaning(upto) == Listing(Meaning(es[..k]), Script(es[k]));
    assert Meaning(es)[i] == Meaning(upto)[i] && CMeaning(es)[j] == CMeaning(upto)[j];
  }

  /* When the lists agree */

  // After C's constants so far, the script adds exactly what C adds.
  predicate RightAt(es: seq<Enumerator>, k: nat)
    requires k < |es|
  {
    Listing(CMeaning(es[..k]), Script(es[k])) == CMeaning(es[..k + 1])
  }

  // Either the script makes no more constants of it than C does, or one that has
  // no name C could give.
  predicate Telling(e: Enumerator) {
    || (exists n :: n in Script(e) && BadlyNamed(n))
    || Count(Script(e)) <= if InC(e).Some? then 1 else 0
  }

  predicate BadlyNamed(n: Entry) {
    !n.Skip? && !IsName(n.name)
  }

  predicate Named(e: Enumerator) {
    InC(e).Some? ==> IsName(InC(e).value.name)
  }

  lemma {:induction false} RightIsEnough(es: seq<Enumerator>)
    requires forall k :: 0 <= k < |es| ==> RightAt(es, k)
    ensures Meaning(es) == CMeaning(es)
  {
    hide Listing, Script, InC;
    if es != [] {
      var n := |es| - 1;
      forall k | 0 <= k < n
        ensures RightAt(es[..n], k)
      {
        RightInPrefix(es, n, k);
      }
      RightIsEnough(es[..n]);
      assert RightAt(es, n) && es[..n + 1] == es;
    }
  }

  // Being right depends on what comes before only.
  lemma RightInPrefix(es: seq<Enumerator>, n: nat, k: nat)
    requires k < n <= |es|
    ensures RightAt(es[..n], k) <==> RightAt(es, k)
  {
    hide Listing, Script, CMeaning;
    assert es[..n][..k] == es[..k] && es[..n][..k + 1] == es[..k + 1];
  }

  lemma {:induction false} NameAppears(before: seq<Variant>, entries: seq<Entry>, n: Entry)
    requires n in entries && !n.Skip?
    ensures exists v :: v in Listing(before, entries) && v.name == n.name
  {
    var init, last := entries[..|entries| - 1], entries[|entries| - 1];
    var all := Listing(before, entries);
    assert Listing(before, init) <= all;
    if n == last {
      assert all[|all| - 1] in all && all[|all| - 1].name == n.name;
    } else {
      NameAppears(before, init, n);
      var v :| v in Listing(before, init) && v.name == n.name;
      assert v in all;
    }
  }

  lemma {:induction false} CNamesAreNames(es: seq<Enumerator>)
    requires forall e :: e in es ==> Named(e)
    ensures forall v :: v in CMeaning(es) ==> IsName(v.name)
  {
    if es != [] {
      var init := es[..|es| - 1];
      assert es[|es| - 1] in es && forall e :: e in init ==> e in es;
      CNamesAreNames(init);
    }
  }

  // A constant with no name C could give stays in the list.
  lemma {:induction false} BadNameIn(es: seq<Enumerator>, k: nat, n: Entry) returns (v: Variant)
    requires k < |es| && n in Script(es[k]) && BadlyNamed(n)
    ensures v in Meaning(es) && !IsName(v.name)
  {
    hide Listing, Script, IsName;
    var upto := es[..k + 1];
    assert upto[..k] == es[..k];
    NameAppears(Meaning(es[..k]), Script(es[k]), n);
    v :| v in Meaning(upto) && v.name == n.name;
    MeaningExtends(es, k + 1);
  }

  predicate Modest(e: Enumerator) {
    Count(Script(e)) <= if InC(e).Some? then 1 else 0
  }

  lemma {:induction false} MeaningIsShorter(es: seq<Enumerator>)
    requires forall e :: e in es ==> Modest(e)
    ensures |Meaning(es)| <= |CMeaning(es)|
  {
    hide Listing, Script, Count;
    if es != [] {
      var init, e := es[..|es| - 1], es[|es| - 1];
      assert e in es && forall x :: x in init ==> x in es;
      MeaningIsShorter(init);
      ListingLength(Meaning(init), Script(e));
      assert Modest(e);
    }
  }

  lemma SamePrefix<T>(a: seq<T>, b: seq<T>, whole: seq<T>)
    requires a <= whole && b <= whole
    ensures |a| == |b| ==> a == b
  {
  }

  lemma {:induction false} RightIsNeeded(es: seq<Enumerator>)
    requires (forall e :: e in es ==> Modest(e)) && Meaning(es) == CMeaning(es)
    ensures forall k :: 0 <= k < |es| ==> RightAt(es, k)
  {
    hide Listing, Script, Count;
    if es != [] {
      var n := |es| - 1;
      var init, e := es[..n], es[n];
      assert e in es && forall x :: x in init ==> x in es;
      assert Modest(e);
      MeaningIsShorter(init);
      ListingLength(Meaning(init), Script(e));
      MeaningExtends(es, n);
      SamePrefix(Meaning(init), CMeaning(init), Meaning(es));
      RightIsNeeded(init);
      assert es[..n + 1] == es;
      forall k | 0 <= k < n
        ensures RightAt(es, k)
      {
        RightInPrefix(es, n, k);
      }
    }
  }

  // The extracted list is C's list if and only if the script makes of every
  // enumerator exactly what C makes of it.
  lemma {:induction false} ListsAgreeExactly(es: seq<Enumerator>)
    requires forall e :: e in es ==> Named(e) && Telling(e)
    ensures Meaning(es) == CMeaning(es) <==> forall k :: 0 <= k < |es| ==> RightAt(es, k)
  {
    hide RightAt, Meaning, CMeaning, Named, Script, Count, BadlyNamed;
    if Meaning(es) == CMeaning(es) {
      forall e | e in es
        ensures Modest(e)
      {
        if exists n :: n in Script(e) && BadlyNamed(n) {
          var n :| n in Script(e) && BadlyNamed(n);
          var k :| 0 <= k < |es| && es[k] == e;
          var v := BadNameIn(es, k, n);
          CNamesAreNames(es);
        }
      }
      RightIsNeeded(es);
    }
    if forall k :: 0 <= k < |es| ==> RightAt(es, k) { RightIsEnough(es); }
  }

  // An enumerator without a value or with a literal is always right.
  lemma PlainIsRight(es: seq<Enumerator>, k: nat)
    requires k < |es| && !es[k].Other?
    ensures RightAt(es, k)
    ensures Named(es[k]) ==> Telling(es[k])
  {
    var upto := es[..k + 1];
    assert upto[..k] == es[..k];
    var entries := Script(es[k]);
    assert entries[..0] == [] && Listing(CMeaning(es[..k]), []) == CMeaning(es[..k]) && Count([]) == 0;
  }
}
