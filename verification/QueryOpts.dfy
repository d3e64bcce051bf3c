// Query options of src/query.rs: every string becomes a null-terminated buffer
// in one vector, and one iterator over that vector hands their addresses to the
// settings and then to the parameters. Strings are the bytes of their UTF-8
// form.
module QueryOpts {
  import opened Outcomes

  datatype Setting = Setting(name: Bytes, value: Bytes, important: bool, custom: bool)

  datatype Param = Param(name: Bytes, value: Bytes)

  datatype Opts = Opts(queryId: Option<Bytes>, settings: seq<Setting>, params: seq<Param>)

  // A pointer is the position of its buffer in `owned`.
  datatype RawSetting = RawSetting(name: nat, value: nat, important: bool, custom: bool)

  datatype RawParam = RawParam(name: nat, value: nat)

  // The query identifier is passed with its length, so it may hold anything.
  datatype RawOpts = RawOpts(
    owned: seq<Bytes>,
    settings: seq<RawSetting>,
    params: seq<RawParam>,
    queryId: Option<Bytes>,
    queryIdLen: nat)

  datatype Label = SettingName | SettingValue | ParamName | ParamValue

  datatype Built = Ready(raw: RawOpts) | InteriorNul(what: Label, position: nat)

  const NUL: byte := 0

  /* One string */

  function NulPosition(s: Bytes): (r: Option<nat>)
    ensures r.None? <==> NUL !in s
    ensures r.Some? ==> r.value < |s| && s[r.value] == NUL && NUL !in s[..r.value]
  {
    if s == [] then None
    else if s[0] == NUL then Some(0)
    else
      match NulPosition(s[1..])
      case None => None
      case Some(i) =>
        assert s[..i + 1] == [s[0]] + s[1..][..i];
        Some(i + 1)
  }

  // What C reads at a pointer: the buffer up to its first null.
  function ReadC(owned: seq<Bytes>, pointer: nat): Bytes
    requires pointer < |owned| && NUL in owned[pointer]
  {
    owned[pointer][..NulPosition(owned[pointer]).value]
  }

  predicate Terminated(buffer: Bytes, s: Bytes) {
    0 !in s && buffer == s + [0]
  }

  lemma {:induction false} ReadsBack(owned: seq<Bytes>, pointer: nat, s: Bytes)
    requires pointer < |owned| && Terminated(owned[pointer], s)
    ensures NUL in owned[pointer] && ReadC(owned, pointer) == s
  {
    var buffer := owned[pointer];
    assert buffer[|s|] == NUL;
    var i := NulPosition(buffer).value;
    assert forall k :: 0 <= k < |s| ==> buffer[k] == s[k];
    assert forall k :: 0 <= k < i ==> buffer[..i][k] == buffer[k];
  }

  /* All of them, in order */

  datatype Labelled = Labelled(what: Label, text: Bytes)

  function SettingStrings(settings: seq<Setting>): (all: seq<Labelled>)
    ensures |all| == 2 * |settings|
    ensures forall i :: 0 <= i < |settings| ==>
      all[2 * i] == Labelled(SettingName, settings[i].name) && all[2 * i + 1] == Labelled(SettingValue, settings[i].value)
  {
    if settings == [] then []
    else
      var last := settings[|settings| - 1];
      SettingStrings(settings[..|settings| - 1]) + [Labelled(SettingName, last.name), Labelled(SettingValue, last.value)]
  }

  function ParamStrings(params: seq<Param>): (all: seq<Labelled>)
    ensures |all| == 2 * |params|
    ensures forall i :: 0 <= i < |params| ==>
      all[2 * i] == Labelled(ParamName, params[i].name) && all[2 * i + 1] == Labelled(ParamValue, params[i].value)
  {
    if params == [] then []
    else
      var last := params[|params| - 1];
      ParamStrings(params[..|params| - 1]) + [Labelled(ParamName, last.name), Labelled(ParamValue, last.value)]
  }

  function Strings(opts: Opts): (all: seq<Labelled>)
    ensures |all| == 2 * |opts.settings| + 2 * |opts.params|
    ensures forall i :: 0 <= i < |opts.settings| ==>
      && all[2 * i] == Labelled(SettingName, opts.settings[i].name)
      && all[2 * i + 1] == Labelled(SettingValue, opts.settings[i].value)
    ensures forall j :: 0 <= j < |opts.params| ==>
      && all[2 * |opts.settings| + 2 * j] == Labelled(ParamName, opts.params[j].name)
      && all[2 * |opts.settings| + 2 * j + 1] == Labelled(ParamValue, opts.params[j].value)
  {
    SettingStrings(opts.settings) + ParamStrings(opts.params)
  }

  // `all[i]` is the first string with a null in it.
  predicate FirstBad(all: seq<Labelled>, i: nat) {
    i < |all| && NUL in all[i].text && forall k :: 0 <= k < i ==> NUL !in all[k].text
  }

  // The error names the first such string and the first null in it.
  ghost predicate NamesFirstNul(opts: Opts, r: Built) {
    exists i: nat ::
      FirstBad(Strings(opts), i)
      && r == InteriorNul(Strings(opts)[i].what, NulPosition(Strings(opts)[i].text).value)
  }

  /* Construction */

  // `cstring` for the next string in order: its buffer, or where its null is.
  method PushString(owned: seq<Bytes>, ghost all: seq<Labelled>, what: Label, s: Bytes)
      returns (next: seq<Bytes>, bad: Option<nat>)
    requires |owned| < |all| && all[|owned|] == Labelled(what, s)
    requires forall k :: 0 <= k < |owned| ==> Terminated(owned[k], all[k].text)
    ensures bad == NulPosition(s)
    ensures bad.None? ==> |next| == |owned| + 1 && forall k :: 0 <= k < |next| ==> Terminated(next[k], all[k].text)
    ensures bad.Some? ==> FirstBad(all, |owned|)
  {
    bad := NulPosition(s);
    next := if bad.None? then owned + [s + [NUL]] else owned;
  }

  method OwnStrings(opts: Opts) returns (owned: seq<Bytes>, bad: Option<Built>)
    ensures bad.None? ==> (forall l :: l in Strings(opts) ==> NUL !in l.text) && |owned| == |Strings(opts)|
    ensures bad.None? ==> forall k :: 0 <= k < |owned| ==> Terminated(owned[k], Strings(opts)[k].text)
    ensures bad.Some? ==> NamesFirstNul(opts, bad.value)
  {
    ghost var all := Strings(opts);
    var nul: Option<nat>;
    owned := [];
    for i := 0 to |opts.settings|
      invariant |owned| == 2 * i
      invariant forall k :: 0 <= k < |owned| ==> Terminated(owned[k], all[k].text)
    {
      owned, nul := PushString(owned, all, SettingName, opts.settings[i].name);
      if nul.Some? {
        return owned, Some(InteriorNul(SettingName, nul.value));
      }
      owned, nul := PushString(owned, all, SettingValue, opts.settings[i].value);
      if nul.Some? {
        return owned, Some(InteriorNul(SettingValue, nul.value));
      }
    }
    for j := 0 to |opts.params|
      invariant |owned| == 2 * |opts.settings| + 2 * j
      invariant forall k :: 0 <= k < |owned| ==> Terminated(owned[k], all[k].text)
    {
      owned, nul := PushString(owned, all, ParamName, opts.params[j].name);
      if nul.Some? {
        return owned, Some(InteriorNul(ParamName, nul.value));
      }
      owned, nul := PushString(owned, all, ParamValue, opts.params[j].value);
      if nul.Some? {
        return owned, Some(InteriorNul(ParamValue, nul.value));
      }
    }
    bad := None;
  }

  // What C reads for setting `i` is `s`.
  ghost predicate SettingReads(raw: RawOpts, s: Setting, i: nat)
    requires i < |raw.settings| && forall k :: 0 <= k < |raw.owned| ==> NUL in raw.owned[k]
  {
    var r := raw.settings[i];
    && r.name < |raw.owned| && r.value < |raw.owned|
    && s == Setting(ReadC(raw.owned, r.name), ReadC(raw.owned, r.value), r.important, r.custom)
  }

  ghost predicate ParamReads(raw: RawOpts, s: Param, j: nat)
    requires j < |raw.params| && forall k :: 0 <= k < |raw.owned| ==> NUL in raw.owned[k]
  {
    var r := raw.params[j];
    r.name < |raw.owned| && r.value < |raw.owned| && s == Param(ReadC(raw.owned, r.name), ReadC(raw.owned, r.value))
  }

  // The raw options give back, through their pointers, what was asked for.
  ghost predicate Faithful(raw: RawOpts, opts: Opts) {
    && (forall k :: 0 <= k < |raw.owned| ==> NUL in raw.owned[k])
    && |raw.settings| == |opts.settings| && |raw.params| == |opts.params|
    && (forall i :: 0 <= i < |raw.settings| ==> SettingReads(raw, opts.settings[i], i))
    && (forall j :: 0 <= j < |raw.params| ==> ParamReads(raw, opts.params[j], j))
    && raw.queryId == opts.queryId
    && raw.queryIdLen == if opts.queryId.Some? then |opts.queryId.value| else 0
  }

  // Where the shared iterator points for each setting and then each parameter.
  ghost predicate Pointed(opts: Opts, settings: seq<RawSetting>, params: seq<RawParam>) {
    && |settings| == |opts.settings| && |params| == |opts.params|
    && (forall k :: 0 <= k < |settings| ==>
          settings[k] == RawSetting(2 * k, 2 * k + 1, opts.settings[k].important, opts.settings[k].custom))
    && (forall k :: 0 <= k < |params| ==>
          params[k] == RawParam(2 * |opts.settings| + 2 * k, 2 * |opts.settings| + 2 * k + 1))
  }

  method PointAll(opts: Opts) returns (settings: seq<RawSetting>, params: seq<RawParam>)
    ensures Pointed(opts, settings, params)
  {
    var next := 0;
    settings, params := [], [];
    for i := 0 to |opts.settings|
      invariant next == 2 * i && |settings| == i
      invariant forall k :: 0 <= k < i ==>
        settings[k] == RawSetting(2 * k, 2 * k + 1, opts.settings[k].important, opts.settings[k].custom)
    {
      settings := settings + [RawSetting(next, next + 1, opts.settings[i].important, opts.settings[i].custom)];
      next := next + 2;
    }
    for j := 0 to |opts.params|
      invariant next == 2 * |opts.settings| + 2 * j && |params| == j
      invariant forall k :: 0 <= k < j ==>
        params[k] == RawParam(2 * |opts.settings| + 2 * k, 2 * |opts.settings| + 2 * k + 1)
    {
      params := params + [RawParam(next, next + 1)];
      next := next + 2;
    }
  }

  lemma {:induction false} PointersReadBack(raw: RawOpts, opts: Opts)
    requires Pointed(opts, raw.settings, raw.params) && |raw.owned| == |Strings(opts)|
    requires forall k :: 0 <= k < |raw.owned| ==> Terminated(raw.owned[k], Strings(opts)[k].text)
    requires raw.queryId == opts.queryId && raw.queryIdLen == if opts.queryId.Some? then |opts.queryId.value| else 0
    ensures Faithful(raw, opts)
  {
    hide ReadC, Strings, Terminated, SettingReads, ParamReads;
    forall k | 0 <= k < |raw.owned|
      ensures NUL in raw.owned[k]
    {
      ReadsBack(raw.owned, k, Strings(opts)[k].text);
    }
    StringCount(opts);
    forall i | 0 <= i < |raw.settings|
      ensures SettingReads(raw, opts.settings[i], i)
    {
      StringsOfSetting(opts, i);
      SettingReadsBack(raw, opts.settings[i], i);
    }
    forall j | 0 <= j < |raw.params|
      ensures ParamReads(raw, opts.params[j], j)
    {
      StringsOfParam(opts, j);
      ParamReadsBack(raw, opts.params[j], j, 2 * |opts.settings| + 2 * j);
    }
  }

  lemma StringCount(opts: Opts)
    ensures |Strings(opts)| == 2 * |opts.settings| + 2 * |opts.params|
  {
  }

  lemma SettingReadsBack(raw: RawOpts, s: Setting, i: nat)
    requires i < |raw.settings| && 2 * i + 1 < |raw.owned|
    requires forall k :: 0 <= k < |raw.owned| ==> NUL in raw.owned[k]
    requires raw.settings[i] == RawSetting(2 * i, 2 * i + 1, s.important, s.custom)
    requires Terminated(raw.owned[2 * i], s.name) && Terminated(raw.owned[2 * i + 1], s.value)
    ensures SettingReads(raw, s, i)
  {
    hide ReadC, Terminated;
    ReadsBack(raw.owned, 2 * i, s.name);
    ReadsBack(raw.owned, 2 * i + 1, s.value);
  }

  lemma ParamReadsBack(raw: RawOpts, s: Param, j: nat, at: nat)
    requires j < |raw.params| && at + 1 < |raw.owned|
    requires forall k :: 0 <= k < |raw.owned| ==> NUL in raw.owned[k]
    requires raw.params[j] == RawParam(at, at + 1)
    requires Terminated(raw.owned[at], s.name) && Terminated(raw.owned[at + 1], s.value)
    ensures ParamReads(raw, s, j)
  {
    hide ReadC, Terminated;
    ReadsBack(raw.owned, at, s.name);
    ReadsBack(raw.owned, at + 1, s.value);
  }

  lemma StringsOfSetting(opts: Opts, i: nat)
    requires i < |opts.settings|
    ensures Strings(opts)[2 * i].text == opts.settings[i].name
    ensures Strings(opts)[2 * i + 1].text == opts.settings[i].value
  {
    assert Strings(opts)[2 * i] == SettingStrings(opts.settings)[2 * i];
  }

  lemma StringsOfParam(opts: Opts, j: nat)
    requires j < |opts.params|
    ensures Strings(opts)[2 * |opts.settings| + 2 * j].text == opts.params[j].name
    ensures Strings(opts)[2 * |opts.settings| + 2 * j + 1].text == opts.params[j].value
  {
    assert Strings(opts)[2 * |opts.settings| + 2 * j] == ParamStrings(opts.params)[2 * j];
  }

  // `RawQueryOpts::new`. It fails exactly when some string holds a null, naming
  // the kind and the place of the first one; otherwise every setting and
  // parameter reads back as its own.
  method New(opts: Opts) returns (r: Built)
    ensures r.Ready? <==> forall l :: l in Strings(opts) ==> 0 !in l.text
    ensures r.Ready? ==> Faithful(r.raw, opts)
    ensures r.InteriorNul? ==> NamesFirstNul(opts, r)
  {
    var owned, bad := OwnStrings(opts);
    if bad.Some? {
      return bad.value;
    }
    var settings, params := PointAll(opts);
    var idLen := if opts.queryId.Some? then |opts.queryId.value| else 0;
    r := Ready(RawOpts(owned, settings, params, opts.queryId, idLen));
    PointersReadBack(r.raw, opts);
  }
}
