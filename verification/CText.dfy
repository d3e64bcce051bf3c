// Characters and the string helpers that build.rs uses, over ASCII text.
module CText {
  import opened Outcomes

  predicate IsDigit(c: char) { '0' <= c <= '9' }

  predicate IsAlpha(c: char) { 'a' <= c <= 'z' || 'A' <= c <= 'Z' }

  // `is_ident_byte`.
  predicate IsIdent(c: char) { IsAlpha(c) || IsDigit(c) || c == '_' }

  // `u8::is_ascii_whitespace`: no vertical tab.
  predicate IsSpace(c: char) { c == ' ' || c == '\t' || c == '\n' || c == '\r' || c == 12 as char }

  // What `str::trim` removes among ASCII characters.
  predicate IsBlank(c: char) { c == ' ' || 9 as char <= c <= 13 as char }

  // The classes, character by character.
  lemma CharClasses(c: char)
    ensures IsDigit(c) <==> c in "0123456789"
    ensures IsAlpha(c) <==> c in "abcdefghijklmnopqrstuvwxyz" || c in "ABCDEFGHIJKLMNOPQRSTUVWXYZ"
    ensures IsIdent(c) <==> IsAlpha(c) || IsDigit(c) || c == '_'
    ensures IsSpace(c) <==> c in " \t\n\r\U{0C}"
    ensures IsBlank(c) <==> c in " \t\n\r\U{0B}\U{0C}"
  {
    InRow("0123456789", '0', c);
    InRow("abcdefghijklmnopqrstuvwxyz", 'a', c);
    InRow("ABCDEFGHIJKLMNOPQRSTUVWXYZ", 'A', c);
    BlankChars(c);
  }

  lemma BlankChars(c: char)
    ensures IsSpace(c) <==> c in " \t\n\r\U{0C}"
    ensures IsBlank(c) <==> c in " \t\n\r\U{0B}\U{0C}"
  {
  }

  // Consecutive characters.
  lemma InRow(row: string, first: char, c: char)
    requires forall i :: 0 <= i < |row| ==> row[i] as int == first as int + i
    ensures c in row <==> first as int <= c as int < first as int + |row|
  {
    if first as int <= c as int < first as int + |row| { assert row[c as int - first as int] == c; }
  }

  predicate All(s: string, p: char -> bool) {
    forall i :: 0 <= i < |s| ==> p(s[i])
  }

  predicate StartsWith(s: string, prefix: string) {
    |prefix| <= |s| && s[..|prefix|] == prefix
  }

  lemma NotAmong(s: string, p: char -> bool, c: char)
    requires All(s, p) && !p(c)
    ensures c !in s
  {
  }

  lemma SliceOfSlice(s: string, from: nat, a: nat, b: nat)
    requires from <= a <= b <= |s|
    ensures s[from..][a - from..b - from] == s[a..b] && s[from..][a - from..] == s[a..]
  {
  }

  // The length of the longest prefix of `s` whose characters all satisfy `p`.
  function Span(s: string, p: char -> bool): (n: nat)
    ensures n <= |s| && All(s[..n], p) && (n < |s| ==> !p(s[n]))
  {
    if s == [] || !p(s[0]) then 0
    else
      var n := Span(s[1..], p);
      assert s[1..][..n] == s[1..n + 1] && s[..n + 1] == [s[0]] + s[1..n + 1];
      n + 1
  }

  lemma {:induction false} SpanOf(a: string, b: string, p: char -> bool)
    requires All(a, p) && (b == [] || !p(b[0]))
    ensures Span(a + b, p) == |a|
  {
    var s, n := a + b, Span(a + b, p);
    assert forall i :: 0 <= i < |a| ==> s[i] == a[i];
    assert b != [] ==> s[|a|] == b[0];
    assert forall i :: 0 <= i < n ==> s[..n][i] == s[i];
  }

  // The inner loops of the scanners: on while `p` holds.
  method SkipWhile(src: string, from: nat, p: char -> bool) returns (j: nat)
    requires from <= |src|
    ensures from <= j <= |src| && j - from == Span(src[from..], p)
  {
    j := from;
    while j < |src| && p(src[j])
      invariant from <= j <= |src| && All(src[from..j], p)
    {
      assert src[from..j + 1] == src[from..j] + [src[j]];
      j := j + 1;
    }
    assert src[from..] == src[from..j] + src[j..];
    SpanOf(src[from..j], src[j..], p);
  }

  function TrimStart(s: string): string {
    if s != [] && IsBlank(s[0]) then TrimStart(s[1..]) else s
  }

  function TrimEnd(s: string, p: char -> bool): string {
    if s != [] && p(s[|s| - 1]) then TrimEnd(s[..|s| - 1], p) else s
  }

  function Trim(s: string): string {
    TrimEnd(TrimStart(s), IsBlank)
  }

  // `body` neither starts nor ends with a character that trimming removes.
  predicate Solid(body: string) {
    body != [] && !IsBlank(body[0]) && !IsBlank(body[|body| - 1])
  }

  lemma {:induction false} TrimStartOf(pad: string, body: string)
    requires All(pad, IsBlank) && (body == [] || !IsBlank(body[0]))
    ensures TrimStart(pad + body) == body
  {
    if pad == [] {
      assert pad + body == body;
    } else {
      assert (pad + body)[1..] == pad[1..] + body;
      TrimStartOf(pad[1..], body);
    }
  }

  lemma {:induction false} TrimEndOf(body: string, pad: string, p: char -> bool)
    requires All(pad, p) && (body == [] || !p(body[|body| - 1]))
    ensures TrimEnd(body + pad, p) == body
  {
    if pad == [] {
      assert body + pad == body;
    } else {
      assert (body + pad)[..|body + pad| - 1] == body + pad[..|pad| - 1];
      TrimEndOf(body, pad[..|pad| - 1], p);
    }
  }

  lemma {:induction false} TrimOf(left: string, body: string, right: string)
    requires All(left, IsBlank) && All(right, IsBlank) && (body == [] || Solid(body))
    ensures Trim(left + body + right) == body
  {
    if body == [] {
      assert left + body + right == left + right;
      assert left + right + [] == left + right;
      TrimStartOf(left + right, []);
    } else {
      assert left + body + right == left + (body + right);
      TrimStartOf(left, body + right);
      TrimEndOf(body, right, IsBlank);
    }
  }

  // Trimming removes blanks on both sides and leaves none.
  lemma {:induction false} TrimStartCuts(s: string) returns (pad: string)
    ensures s == pad + TrimStart(s) && All(pad, IsBlank)
    ensures TrimStart(s) == [] || !IsBlank(TrimStart(s)[0])
  {
    if s != [] && IsBlank(s[0]) {
      var rest := TrimStartCuts(s[1..]);
      pad := [s[0]] + rest;
      assert s == [s[0]] + s[1..];
    } else {
      pad := [];
    }
  }

  lemma {:induction false} TrimEndCuts(s: string, p: char -> bool) returns (pad: string)
    ensures s == TrimEnd(s, p) + pad && All(pad, p)
    ensures TrimEnd(s, p) == [] || !p(TrimEnd(s, p)[|TrimEnd(s, p)| - 1])
  {
    if s != [] && p(s[|s| - 1]) {
      var rest := TrimEndCuts(s[..|s| - 1], p);
      pad := rest + [s[|s| - 1]];
      assert s == s[..|s| - 1] + [s[|s| - 1]];
    } else {
      pad := [];
    }
  }

  lemma {:induction false} TrimCuts(s: string) returns (left: string, right: string)
    ensures s == left + Trim(s) + right && All(left, IsBlank) && All(right, IsBlank)
    ensures Trim(s) == [] || Solid(Trim(s))
  {
    left := TrimStartCuts(s);
    var t := TrimStart(s);
    right := TrimEndCuts(t, IsBlank);
    assert t == Trim(s) + right;
    assert Trim(s) != [] ==> Trim(s)[0] == t[0];
  }

  // `str::find` of one character.
  function Find(s: string, c: char): (r: Option<nat>)
    ensures r.None? ==> c !in s
    ensures r.Some? ==> r.value < |s| && s[r.value] == c && c !in s[..r.value]
  {
    if s == [] then None
    else if s[0] == c then Some(0)
    else
      match Find(s[1..], c)
      case None => None
      case Some(i) =>
        assert s[..i + 1] == [s[0]] + s[1..][..i];
        Some(i + 1)
  }

  lemma FindOf(a: string, c: char, b: string)
    requires c !in a
    ensures Find(a + [c] + b, c) == Some(|a|)
  {
    var s := a + [c] + b;
    assert s[|a|] == c;
    assert forall k :: 0 <= k < |a| ==> s[k] == a[k];
    var i := Find(s, c).value;
    assert forall k :: 0 <= k < i ==> s[..i][k] == s[k];
  }

  // `str::split` on one character: always at least one piece.
  function Split(s: string, c: char): (pieces: seq<string>)
    ensures pieces != []
  {
    match Find(s, c)
    case None => [s]
    case Some(i) => [s[..i]] + Split(s[i + 1..], c)
  }

  function Join(pieces: seq<string>, c: char): string
    requires pieces != []
  {
    if |pieces| == 1 then pieces[0] else pieces[0] + [c] + Join(pieces[1..], c)
  }

  // Splitting works on either side of a separator.
  lemma {:induction false} SplitOfTwo(a: string, b: string, c: char)
    ensures Split(a + [c] + b, c) == Split(a, c) + Split(b, c)
  {
    hide Find;
    var s := a + [c] + b;
    match Find(a, c)
    case None =>
      FindOf(a, c, b);
      assert s[..|a|] == a && s[|a| + 1..] == b;
    case Some(i) =>
      var rest := a[i + 1..];
      assert s == a[..i] + [c] + (rest + [c] + b);
      FindOf(a[..i], c, rest + [c] + b);
      assert s[..i] == a[..i] && s[i + 1..] == rest + [c] + b;
      SplitOfTwo(rest, b, c);
      assert [a[..i]] + (Split(rest, c) + Split(b, c)) == ([a[..i]] + Split(rest, c)) + Split(b, c);
  }

  // The pieces hold no separator, and joined by it they are the text.
  lemma {:induction false} SplitExactly(s: string, c: char)
    ensures Join(Split(s, c), c) == s && forall piece :: piece in Split(s, c) ==> c !in piece
  {
    hide Find;
    match Find(s, c)
    case None =>
    case Some(i) =>
      SplitExactly(s[i + 1..], c);
      var rest := Split(s[i + 1..], c);
      assert Split(s, c)[1..] == rest;
      assert s == s[..i] + [c] + s[i + 1..];
  }
}
