// Enum extraction in build.rs: `parse_enum_body` and `extract_enums`.
//
// `next_value` is a 64-bit integer whose increment is checked, so a run that
// would pass its maximum stops; `None` stands for that.
module CEnums {
  import opened Outcomes
  import opened CText
  import opened CComments
  import opened CIntegers

  datatype Variant = Variant(name: string, value: int)

  datatype EnumBlock = EnumBlock(tag: Option<string>, variants: seq<Variant>)

  /* What the scanner computes */

  function Cons<T>(x: T, rest: Option<seq<T>>): Option<seq<T>> {
    if rest.None? then None else Some([x] + rest.value)
  }

  function Onto<T>(done: seq<T>, rest: Option<seq<T>>): Option<seq<T>> {
    if rest.None? then None else Some(done + rest.value)
  }

  lemma OntoEmpty<T>(rest: Option<seq<T>>)
    ensures Onto([], rest) == rest
  {
    if rest.Some? { assert [] + rest.value == rest.value; }
  }

  lemma OntoCons<T>(done: seq<T>, x: T, rest: Option<seq<T>>)
    ensures Onto(done, Cons(x, rest)) == Onto(done + [x], rest)
  {
    if rest.Some? { assert done + ([x] + rest.value) == done + [x] + rest.value; }
  }

  function ParsePieces(pieces: seq<string>, next: int): Option<seq<Variant>>
    decreases |pieces|
  {
    if pieces == [] then Some([])
    else
      var raw := Trim(pieces[0]);
      if raw == [] then ParsePieces(pieces[1..], next)
      else
        match Find(raw, '=')
        case Some(eq) =>
          (match ParseCInteger(Trim(raw[eq + 1..]))
           case None => ParsePieces(pieces[1..], next)
           case Some(v) =>
             if v == I64_MAX then None
             else Cons(Variant(Trim(raw[..eq]), v), ParsePieces(pieces[1..], v + 1)))
        case None =>
          if next == I64_MAX then None
          else Cons(Variant(raw, next), ParsePieces(pieces[1..], next + 1))
  }

  function ParseBody(body: string): Option<seq<Variant>> {
    ParsePieces(Split(body, ','), 0)
  }

  const ENUM := "enum"

  predicate KeywordHere(glued: bool, s: string) {
    !glued && StartsWith(s, ENUM) && (|s| == 4 || !IsIdent(s[4]))
  }

  // The keyword is a whole identifier: neither end is inside a longer one.
  lemma {:induction false} KeywordIsWholeWord(glued: bool, s: string)
    ensures KeywordHere(glued, s) <==> !glued && s[..Span(s, IsIdent)] == ENUM
  {
    var n := Span(s, IsIdent);
    if StartsWith(s, ENUM) {
      assert forall k :: 0 <= k < 4 ==> s[k] == s[..4][k];
      assert s == s[..4] + s[4..];
      if |s| == 4 || !IsIdent(s[4]) {
        assert All(s[..4], IsIdent);
        SpanOf(s[..4], s[4..], IsIdent);
      } else {
        assert n != 4;
      }
    }
  }

  // What follows the keyword: the tag, if any, and where the brace should be.
  function Header(s: string): (h: (Option<string>, nat))
    ensures h.1 <= |s|
  {
    var j := Span(s, IsSpace);
    if j < |s| && (IsAlpha(s[j]) || s[j] == '_') then
      var e := j + Span(s[j..], IsIdent);
      (Some(s[j..e]), e + Span(s[e..], IsSpace))
    else (None, j)
  }

  function Deeper(c: char, depth: nat): nat
    requires depth > 0
  {
    if c == '{' then depth + 1 else if c == '}' then depth - 1 else depth
  }

  // How far to the brace that brings the nesting depth to zero, inclusive.
  function Close(s: string, depth: nat): (n: Option<nat>)
    ensures n.Some? ==> n.value <= |s| && (depth > 0 ==> n.value > 0)
  {
    if depth == 0 then Some(0)
    else if s == [] then None
    else
      match Close(s[1..], Deeper(s[0], depth))
      case None => None
      case Some(n) => Some(n + 1)
  }

  // Opening braces less closing ones.
  function Balance(s: string): int {
    if s == [] then 0
    else (if s[0] == '{' then 1 else if s[0] == '}' then -1 else 0) + Balance(s[1..])
  }

  // That brace is the first place where the braces balance, starting `depth`
  // deep; if there is none they balance nowhere.
  lemma {:induction false} CloseIsFirstBalance(s: string, depth: nat)
    ensures match Close(s, depth)
      case Some(n) =>
        depth + Balance(s[..n]) == 0 && forall k :: 0 <= k < n ==> depth + Balance(s[..k]) > 0
      case None => forall k :: 0 <= k <= |s| ==> depth + Balance(s[..k]) > 0
  {
    if depth > 0 && s != [] {
      CloseIsFirstBalance(s[1..], Deeper(s[0], depth));
      forall k | 0 < k <= |s|
        ensures depth + Balance(s[..k]) == Deeper(s[0], depth) + Balance(s[1..][..k - 1])
      {
        assert s[..k][1..] == s[1..][..k - 1];
      }
    }
  }

  lemma {:induction false} BalanceOfTwo(a: string, b: string)
    ensures Balance(a + b) == Balance(a) + Balance(b)
  {
    if a == [] {
      assert a + b == b;
    } else {
      assert (a + b)[1..] == a[1..] + b;
      BalanceOfTwo(a[1..], b);
    }
  }

  function Collect(
      tag: Option<string>, variants: Option<seq<Variant>>, rest: Option<seq<EnumBlock>>): Option<seq<EnumBlock>>
  {
    match variants
    case None => None
    case Some(vs) => if vs == [] then rest else Cons(EnumBlock(tag, vs), rest)
  }

  // The block that starts here, if one does: tag, body, and the text after it.
  function BlockAt(glued: bool, s: string): (r: Option<(Option<string>, string, string)>)
    ensures r.Some? ==> |r.value.2| < |s|
  {
    if !KeywordHere(glued, s) then None
    else
      var (tag, at) := Header(s[4..]);
      if at == |s[4..]| || s[4..][at] != '{' then None
      else
        var inner := s[4..][at + 1..];
        match Close(inner, 1)
        case None => None
        case Some(n) => Some((tag, inner[..n - 1], inner[n..]))
  }

  // The blocks from `s` on; `glued` says that an identifier character precedes.
  function Enums(glued: bool, s: string): Option<seq<EnumBlock>>
    decreases |s|
  {
    if |s| < 4 then Some([])
    else
      match BlockAt(glued, s)
      case Some((tag, body, rest)) => Collect(tag, ParseBody(body), Enums(false, rest))
      case None => Enums(IsIdent(s[0]), s[1..])
  }

  /* The loops */

  method ParseEnumBody(body: string) returns (r: Option<seq<Variant>>)
    ensures r == ParseBody(body)
  {
    hide Trim, Find, Split, ParseCInteger;
    var pieces := Split(body, ',');
    var out: seq<Variant> := [];
    var nextValue := 0;
    OntoEmpty(ParsePieces(pieces, 0));
    for k := 0 to |pieces|
      invariant ParseBody(body) == Onto(out, ParsePieces(pieces[k..], nextValue))
    {
      ghost var rest := pieces[k + 1..];
      assert pieces[k..][1..] == rest;
      var raw := Trim(pieces[k]);
      if raw == [] {
        continue;
      }
      match Find(raw, '=') {
        case Some(eq) =>
          match ParseCInteger(Trim(raw[eq + 1..])) {
            case None => continue;
            case Some(value) =>
              if value == I64_MAX {
                return None;
              }
              OntoCons(out, Variant(Trim(raw[..eq]), value), ParsePieces(rest, value + 1));
              out := out + [Variant(Trim(raw[..eq]), value)];
              nextValue := value + 1;
          }
        case None =>
          if nextValue == I64_MAX {
            return None;
          }
          OntoCons(out, Variant(raw, nextValue), ParsePieces(rest, nextValue + 1));
          out := out + [Variant(raw, nextValue)];
          nextValue := nextValue + 1;
      }
    }
    assert out + [] == out;
    return Some(out);
  }

  // The loop that tracks brace nesting; `None` when the text ends first.
  method MatchBrace(src: string, from: nat) returns (k: Option<nat>)
    requires from <= |src|
    ensures k.None? <==> Close(src[from..], 1).None?
    ensures k.Some? ==> from < k.value <= |src| && k.value - from == Close(src[from..], 1).value
  {
    var depth: nat := 1;
    var i := from;
    while i < |src| && depth > 0
      invariant from <= i <= |src|
      invariant Close(src[i..], depth).None? <==> Close(src[from..], 1).None?
      invariant Close(src[i..], depth).Some? ==> i - from + Close(src[i..], depth).value == Close(src[from..], 1).value
    {
      assert src[i..][1..] == src[i + 1..];
      depth := Deeper(src[i], depth);
      i := i + 1;
    }
    k := if depth == 0 then Some(i) else None;
  }

  method ScanHeader(src: string, from: nat) returns (tag: Option<string>, j: nat)
    requires from <= |src|
    ensures from <= j <= |src| && (tag, j - from) == Header(src[from..])
  {
    hide Span, All;
    j := SkipWhile(src, from, IsSpace);
    tag := None;
    if j < |src| && (IsAlpha(src[j]) || src[j] == '_') {
      var start := j;
      var end := SkipWhile(src, start, IsIdent);
      j := SkipWhile(src, end, IsSpace);
      tag := Some(src[start..end]);
      SliceOfSlice(src, from, start, end);
      SliceOfSlice(src, from, end, end);
    }
  }

  // The test at the head of the loop.
  lemma KeywordTest(src: string, i: nat)
    requires i + 4 <= |src|
    ensures KeywordHere(i > 0 && IsIdent(src[i - 1]), src[i..]) <==>
      src[i..i + 4] == ENUM && (i == 0 || !IsIdent(src[i - 1])) && (i + 4 == |src| || !IsIdent(src[i + 4]))
  {
    SliceOfSlice(src, i, i, i + 4);
  }

  // What the header scan and the brace loop found, put together.
  lemma BlockFound(src: string, i: nat, tag: Option<string>, j: nat, k: Option<nat>)
    requires i + 4 <= j <= |src| && KeywordHere(i > 0 && IsIdent(src[i - 1]), src[i..])
    requires (tag, j - (i + 4)) == Header(src[i + 4..])
    requires j < |src| && src[j] == '{' ==>
      && (k.None? <==> Close(src[j + 1..], 1).None?)
      && (k.Some? ==> j + 1 < k.value <= |src| && k.value - (j + 1) == Close(src[j + 1..], 1).value)
    ensures BlockAt(i > 0 && IsIdent(src[i - 1]), src[i..]) ==
      if j < |src| && src[j] == '{' && k.Some? then Some((tag, src[j + 1..k.value - 1], src[k.value..])) else None
  {
    hide Header, Close, KeywordHere, BlockAt;
    if j < |src| && src[j] == '{' {
      BraceBlock(src, i, i > 0 && IsIdent(src[i - 1]), tag, j, k);
    } else {
      NoBraceBlock(src, i, i > 0 && IsIdent(src[i - 1]), tag, j);
    }
  }

  lemma NoBraceBlock(src: string, i: nat, glued: bool, tag: Option<string>, j: nat)
    requires i + 4 <= j <= |src| && KeywordHere(glued, src[i..])
    requires (tag, j - (i + 4)) == Header(src[i + 4..]) && (j == |src| || src[j] != '{')
    ensures BlockAt(glued, src[i..]) == None
  {
    hide Header, Close, KeywordHere, BlockAt;
    SliceOfSlice(src, i, i + 4, i + 4);
    BlockOf(glued, src[i..], src[i + 4..], tag, j - (i + 4));
  }

  lemma BraceBlock(src: string, i: nat, glued: bool, tag: Option<string>, j: nat, k: Option<nat>)
    requires i + 4 <= j < |src| && src[j] == '{' && KeywordHere(glued, src[i..])
    requires (tag, j - (i + 4)) == Header(src[i + 4..]) && (k.None? <==> Close(src[j + 1..], 1).None?)
    requires k.Some? ==> j + 1 < k.value <= |src| && k.value - (j + 1) == Close(src[j + 1..], 1).value
    ensures BlockAt(glued, src[i..]) ==
      if k.Some? then Some((tag, src[j + 1..k.value - 1], src[k.value..])) else None
  {
    hide Header, Close, KeywordHere, BlockAt;
    SliceOfSlice(src, i, i + 4, i + 4);
    BlockOf(glued, src[i..], src[i + 4..], tag, j - (i + 4));
    SliceOfSlice(src, i + 4, j + 1, j + 1);
    if k.Some? {
      SliceOfSlice(src, j + 1, k.value, k.value);
      SliceOfSlice(src, j + 1, j + 1, k.value - 1);
    }
  }

  lemma BlockOf(glued: bool, s: string, after: string, tag: Option<string>, at: nat)
    requires KeywordHere(glued, s) && s[4..] == after && Header(after) == (tag, at)
    ensures BlockAt(glued, s) ==
      if at == |after| || after[at] != '{' || Close(after[at + 1..], 1).None? then None
      else
        var inner, n := after[at + 1..], Close(after[at + 1..], 1).value;
        Some((tag, inner[..n - 1], inner[n..]))
  {
    hide Header, Close, KeywordHere;
  }

  // The block whose keyword is at `i`, if there is one: its parts and where the
  // scan goes on.
  method ScanEnum(src: string, i: nat) returns (found: bool, tag: Option<string>, body: string, end: nat)
    requires i + 4 <= |src|
    ensures found ==> i < end <= |src| && src[end - 1] == '}'
    ensures BlockAt(i > 0 && IsIdent(src[i - 1]), src[i..]) ==
      if found then Some((tag, body, src[end..])) else None
  {
    hide Header, Close, KeywordHere;
    found, tag, body, end := false, None, [], i;
    KeywordTest(src, i);
    if src[i..i + 4] == ENUM && (i == 0 || !IsIdent(src[i - 1])) && (i + 4 == |src| || !IsIdent(src[i + 4])) {
      var j, k := i, None;
      tag, j := ScanHeader(src, i + 4);
      if j < |src| && src[j] == '{' {
        k := MatchBrace(src, j + 1);
        if k.Some? {
          ClosesOnBrace(src[j + 1..], 1);
          found, body, end := true, src[j + 1..k.value - 1], k.value;
        }
      }
      BlockFound(src, i, tag, j, k);
    }
  }

  method ExtractEnums(src0: string) returns (results: Option<seq<EnumBlock>>)
    ensures results == Enums(false, Strip(src0))
  {
    hide BlockAt, Strip, ParseBody;
    var src := StripComments(src0);
    var found: seq<EnumBlock> := [];
    var i := 0;
    assert src[0..] == src;
    OntoEmpty(Enums(false, src));
    while i + 4 <= |src|
      invariant 0 <= i <= |src|
      invariant Enums(false, src) == Onto(found, Enums(i > 0 && IsIdent(src[i - 1]), src[i..]))
    {
      var here, tag, body, end := ScanEnum(src, i);
      if here {
        var variants := ParseEnumBody(body);
        if variants.None? {
          return None;
        }
        if variants.value != [] {
          OntoCons(found, EnumBlock(tag, variants.value), Enums(false, src[end..]));
          found := found + [EnumBlock(tag, variants.value)];
        }
        i := end;
      } else {
        assert src[i..][1..] == src[i + 1..];
        i := i + 1;
      }
    }
    assert found + [] == found;
    return Some(found);
  }

  lemma {:induction false} ClosesOnBrace(s: string, depth: nat)
    requires depth > 0 && Close(s, depth).Some?
    ensures s[Close(s, depth).value - 1] == '}'
  {
    if Deeper(s[0], depth) > 0 { ClosesOnBrace(s[1..], Deeper(s[0], depth)); }
  }
}
