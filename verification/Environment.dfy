/** mergedEnvironment: ambient entries that controlled variables do not replace, plus one entry for each
    controlled variable, sorted. */
module Environment {
  import opened Basics
  import opened Text

  type Values = map<string, string>

  /** The variables every child process gets. */
  const DEFAULTS: Values := map["GOWORK" := "off", "GOPROXY" := "off", "GOFLAGS" := "", "GOTOOLCHAIN" := "local"]

  /** The variables of a child process that may reach the network: the proxy stays as it is. */
  const ONLINE: Values := map["GOWORK" := "off", "GOFLAGS" := "", "GOTOOLCHAIN" := "local"]

  /** strings.Cut at "=": whether there is one, and what precedes it. */
  predicate WellFormed(entry: string) {
    '=' in entry
  }

  function Key(entry: string): string {
    entry[..IndexOf(entry, '=')]
  }

  function Entry(key: string, value: string): string {
    key + "=" + value
  }

  /** An ambient entry survives if it is well formed and its key, upper-cased, is not controlled. */
  predicate Kept(upper: string -> string, values: Values, entry: string) {
    WellFormed(entry) && upper(Key(entry)) !in values
  }

  /** Which controlled variables an entry stands for. */
  ghost function Owners(values: Values, e: string): map<string, nat> {
    map key | key in values :: if Entry(key, values[key]) == e then 1 else 0
  }

  /** How often an entry is written for the controlled variables. */
  ghost function Written(values: Values, e: string): nat {
    Sum(Owners(values, e))
  }

  lemma {:induction false} WrittenTake(values: Values, key: string, e: string)
    requires key in values
    ensures Written(values, e) == (if Entry(key, values[key]) == e then 1 else 0) + Written(values - {key}, e)
  {
    SumTake(Owners(values, e), key);
    assert Owners(values, e) - {key} == Owners(values - {key}, e);
  }

  /** How often an entry must occur after a merge. */
  ghost function Expected(upper: string -> string, values: Values, ambient: seq<string>, e: string): nat {
    (if Kept(upper, values, e) then multiset(ambient)[e] else 0) + Written(values, e)
  }

  /** What the merge must be: sorted, every entry as often as expected. */
  ghost predicate Merged(upper: string -> string, values: Values, ambient: seq<string>, result: seq<string>) {
    IsSorted(result) && forall e :: multiset(result)[e] == Expected(upper, values, ambient, e)
  }

  /** mergedEnvironment with the ambient environment as a parameter; `upper` is strings.ToUpper. The
      controlled variables come in whatever order the map gives them, and the result does not show it. */
  method MergedEnvironment(upper: string -> string, overrides: Values, ambient: seq<string>) returns (result: seq<string>)
    ensures Merged(upper, DEFAULTS + overrides, ambient, result)
  {
    result := Merge(upper, DEFAULTS + overrides, ambient);
  }

  /** onlineEnvironment: the same two loops over other values. */
  method OnlineEnvironment(upper: string -> string, ambient: seq<string>) returns (result: seq<string>)
    ensures Merged(upper, ONLINE, ambient, result)
  {
    result := Merge(upper, ONLINE, ambient);
  }

  method Merge(upper: string -> string, values: Values, ambient: seq<string>) returns (result: seq<string>)
    ensures Merged(upper, values, ambient, result)
  {
    result := [];
    for i := 0 to |ambient|
      invariant forall e :: multiset(result)[e] == if Kept(upper, values, e) then multiset(ambient[..i])[e] else 0
    {
      if WellFormed(ambient[i]) && upper(Key(ambient[i])) !in values {
        result := result + [ambient[i]];
      }
      assert ambient[..i + 1] == ambient[..i] + [ambient[i]];
    }
    assert ambient[..|ambient|] == ambient;
    result := AppendWritten(values, result);
    result := Sort(result);
  }

  /** The second loop: one entry for each controlled variable. */
  method AppendWritten(values: Values, start: seq<string>) returns (result: seq<string>)
    ensures forall e :: multiset(result)[e] == multiset(start)[e] + Written(values, e)
  {
    result := start;
    var rest := values;
    while rest.Keys != {}
      invariant forall e :: multiset(result)[e] + Written(rest, e) == multiset(start)[e] + Written(values, e)
      decreases |rest|
    {
      var key :| key in rest.Keys;
      forall e
        ensures Written(rest, e) == (if Entry(key, rest[key]) == e then 1 else 0) + Written(rest - {key}, e)
      {
        WrittenTake(rest, key, e);
      }
      result, rest := result + [Entry(key, rest[key])], rest - {key};
    }
    assert rest == map[];
    forall e
      ensures Written(rest, e) == 0
    {
      assert Owners(rest, e) == map[];
    }
  }

  // ----- what a merge means -----

  /** The result is determined: by neither the order of the ambient entries nor that of the map. */
  lemma {:induction false} MergeIsDetermined(
    upper: string -> string, values: Values, a: seq<string>, b: seq<string>, x: seq<string>, y: seq<string>)
    requires multiset(a) == multiset(b) && Merged(upper, values, a, x) && Merged(upper, values, b, y)
    ensures x == y
  {
    forall e
      ensures multiset(x)[e] == multiset(y)[e]
    {
      assert Expected(upper, values, a, e) == Expected(upper, values, b, e);
    }
    SortedIsUnique(x, y);
  }

  /** Keys as they are written: no "=" inside, already in upper case. */
  ghost predicate ProperKeys(upper: string -> string, values: Values) {
    forall key :: key in values ==> '=' !in key && upper(key) == key
  }

  lemma {:induction false} KeyOfEntry(key: string, value: string)
    requires '=' !in key
    ensures WellFormed(Entry(key, value)) && Key(Entry(key, value)) == key
  {
    IndexOfIsFirst(key, '=', value);
    assert Entry(key, value)[|key|] == '=';
    assert Entry(key, value)[..|key|] == key;
  }

  lemma {:induction false} WrittenMembers(values: Values, e: string)
    ensures Written(values, e) > 0 <==> exists key :: key in values && e == Entry(key, values[key])
    decreases |values|
  {
    if values == map[] {
      assert Owners(values, e) == map[];
    } else {
      var k :| k in values;
      WrittenTake(values, k, e);
      WrittenMembers(values - {k}, e);
      if Written(values - {k}, e) > 0 {
        var key :| key in values - {k} && e == Entry(key, (values - {k})[key]);
        assert key in values && e == Entry(key, values[key]);
      }
      if exists key :: key in values && e == Entry(key, values[key]) {
        var key :| key in values && e == Entry(key, values[key]);
        assert key != k ==> key in values - {k} && e == Entry(key, (values - {k})[key]);
      }
    }
  }

  lemma {:induction false} WrittenOnce(upper: string -> string, values: Values, key: string)
    requires ProperKeys(upper, values) && key in values
    ensures Written(values, Entry(key, values[key])) == 1
  {
    var e, rest := Entry(key, values[key]), values - {key};
    WrittenTake(values, key, e);
    WrittenMembers(rest, e);
    if Written(rest, e) > 0 {
      var other :| other in rest && e == Entry(other, rest[other]);
      KeyOfEntry(other, values[other]);
      KeyOfEntry(key, values[key]);
      assert false;
    }
  }

  /** Every entry of a merge has a name and a value; the name is what precedes the first "=". */
  lemma {:induction false} MergedEntries(
    upper: string -> string, values: Values, ambient: seq<string>, result: seq<string>, e: string)
    requires Merged(upper, values, ambient, result) && e in result
    ensures '=' in e
  {
    assert e in multiset(result);
    assert multiset(result)[e] == Expected(upper, values, ambient, e);
    WrittenMembers(values, e);
    if Written(values, e) > 0 {
      var k :| k in values && e == Entry(k, values[k]);
      assert e[|k|] == '=';
    }
  }

  /** A merge over any controlled values: one entry for each, none under another spelling; every other
      entry as often as before. */
  lemma {:induction false} OneEntryEach(
    upper: string -> string, values: Values, ambient: seq<string>, result: seq<string>, key: string, name: string, rest: string)
    requires ProperKeys(upper, values) && Merged(upper, values, ambient, result) && key in values && '=' !in name
    ensures multiset(result)[key + "=" + values[key]] == 1
    ensures name + "=" + rest in result && upper(name) == key ==> name == key && rest == values[key]
    ensures upper(name) !in values ==> multiset(result)[name + "=" + rest] == multiset(ambient)[name + "=" + rest]
  {
    var own, e := Entry(key, values[key]), Entry(name, rest);
    KeyOfEntry(key, values[key]);
    KeyOfEntry(name, rest);
    WrittenOnce(upper, values, key);
    assert multiset(result)[own] == Expected(upper, values, ambient, own);
    assert multiset(result)[e] == Expected(upper, values, ambient, e);
    assert e in result <==> e in multiset(result);
    WrittenMembers(values, e);
    if Written(values, e) > 0 {
      var k :| k in values && e == Entry(k, values[k]);
      KeyOfEntry(k, values[k]);
      assert e[|name| + 1..] == rest && e[|k| + 1..] == values[k];
    }
  }

  /** The variables that mergedEnvironment controls on its own, and their values. */
  ghost predicate Standard(key: string, value: string) {
    (key == "GOWORK" && value == "off") || (key == "GOPROXY" && value == "off") || (key == "GOFLAGS" && value == "") ||
    (key == "GOTOOLCHAIN" && value == "local")
  }

  lemma {:induction false} StandardValues(key: string)
    ensures key in DEFAULTS <==> exists value :: Standard(key, value)
    ensures key in ONLINE <==> key != "GOPROXY" && exists value :: Standard(key, value)
    ensures forall value :: Standard(key, value) ==> DEFAULTS[key] == value && (key in ONLINE ==> ONLINE[key] == value)
  {
    if key in DEFAULTS { assert Standard(key, DEFAULTS[key]); }
    assert key in ONLINE ==> key in DEFAULTS && ONLINE[key] == DEFAULTS[key];
  }

  /** Every controlled variable has exactly one entry after mergedEnvironment, whatever the case of ambient
      spellings, and it carries the override or else the standard value; a variable that is neither
      overridden nor standard is left alone. */
  lemma {:induction false} OneEntryPerVariable(
    upper: string -> string, overrides: Values, ambient: seq<string>, result: seq<string>, key: string, value: string, rest: string)
    requires ProperKeys(upper, DEFAULTS + overrides) && Merged(upper, DEFAULTS + overrides, ambient, result)
    requires '=' !in key
    ensures (if key in overrides then overrides[key] == value else Standard(key, value)) ==>
              multiset(result)[key + "=" + value] == 1 && (key + "=" + rest in result ==> rest == value)
    ensures upper(key) !in overrides && (forall v :: !Standard(upper(key), v)) ==>
              multiset(result)[key + "=" + rest] == multiset(ambient)[key + "=" + rest]
  {
    var values := DEFAULTS + overrides;
    StandardValues(key);
    StandardValues(upper(key));
    if key in overrides || Standard(key, value) {
      assert upper(key) == key && key in values;
      OneEntryEach(upper, values, ambient, result, key, key, rest);
    }
    if upper(key) !in values {
      assert "GOWORK" in values;
      OneEntryEach(upper, values, ambient, result, "GOWORK", key, rest);
    }
  }

  /** The online environment sets the other standard variables and leaves the proxy to the ambient one; the
      offline environment sets it. */
  lemma {:induction false} OnlyOnlineKeepsTheProxy(
    upper: string -> string, ambient: seq<string>, online: seq<string>, offline: seq<string>, name: string, rest: string)
    requires ProperKeys(upper, DEFAULTS) && '=' !in name
    requires Merged(upper, ONLINE, ambient, online) && Merged(upper, DEFAULTS, ambient, offline)
    ensures upper(name) == "GOPROXY" ==>
              multiset(online)[name + "=" + rest] == multiset(ambient)[name + "=" + rest] &&
              (name + "=" + rest in offline <==> name == "GOPROXY" && rest == "off")
    ensures forall value :: name != "GOPROXY" && Standard(name, value) ==>
              multiset(online)[name + "=" + value] == 1 && (name + "=" + rest in online ==> rest == value)
  {
    if upper(name) == "GOPROXY" {
      ProxyOnline(upper, ambient, online, name, rest);
      ProxyOffline(upper, ambient, offline, name, rest);
    }
    if name in ONLINE { StandardOnline(upper, ambient, online, name, rest); }
    StandardValues(name);
  }

  lemma {:induction false} OnlineKeysAreProper(upper: string -> string)
    requires ProperKeys(upper, DEFAULTS)
    ensures ProperKeys(upper, ONLINE) && "GOWORK" in ONLINE && "GOPROXY" !in ONLINE
  {
    assert forall key :: key in ONLINE ==> key in DEFAULTS;
  }

  lemma {:induction false} ProxyOnline(upper: string -> string, ambient: seq<string>, online: seq<string>, name: string, rest: string)
    requires ProperKeys(upper, DEFAULTS) && Merged(upper, ONLINE, ambient, online) && '=' !in name && upper(name) == "GOPROXY"
    ensures multiset(online)[name + "=" + rest] == multiset(ambient)[name + "=" + rest]
  {
    OnlineKeysAreProper(upper);
    OneEntryEach(upper, ONLINE, ambient, online, "GOWORK", name, rest);
  }

  lemma {:induction false} ProxyOffline(upper: string -> string, ambient: seq<string>, offline: seq<string>, name: string, rest: string)
    requires ProperKeys(upper, DEFAULTS) && Merged(upper, DEFAULTS, ambient, offline) && '=' !in name && upper(name) == "GOPROXY"
    ensures name + "=" + rest in offline <==> name == "GOPROXY" && rest == "off"
  {
    assert DEFAULTS["GOPROXY"] == "off";
    OneEntryEach(upper, DEFAULTS, ambient, offline, "GOPROXY", name, rest);
    assert "GOPROXY" + "=" + "off" in multiset(offline);
  }

  lemma {:induction false} StandardOnline(upper: string -> string, ambient: seq<string>, online: seq<string>, name: string, rest: string)
    requires ProperKeys(upper, DEFAULTS) && Merged(upper, ONLINE, ambient, online) && name in ONLINE
    ensures multiset(online)[name + "=" + ONLINE[name]] == 1 && (name + "=" + rest in online ==> rest == ONLINE[name])
  {
    OnlineKeysAreProper(upper);
    OneEntryEach(upper, ONLINE, ambient, online, name, name, rest);
  }

  /** No entry written by the merge would survive a second one. */
  ghost predicate Absorbing(upper: string -> string, values: Values) {
    forall key :: key in values ==> upper(Key(Entry(key, values[key]))) in values
  }

  /** Merging again changes nothing, exactly if every controlled variable is written under a key that the
      next merge takes for a controlled one; upper-case keys without "=" are. */
  lemma {:induction false} MergeIsIdempotent(
    upper: string -> string, values: Values, ambient: seq<string>, once: seq<string>, twice: seq<string>)
    requires Merged(upper, values, ambient, once) && Merged(upper, values, once, twice)
    ensures twice == once <==> Absorbing(upper, values)
    ensures ProperKeys(upper, values) ==> Absorbing(upper, values)
  {
    forall e
      ensures multiset(twice)[e] == multiset(once)[e] + (if Kept(upper, values, e) then Written(values, e) else 0)
    {
      assert multiset(once)[e] == Expected(upper, values, ambient, e);
      assert multiset(twice)[e] == Expected(upper, values, once, e);
    }
    if Absorbing(upper, values) {
      forall e | Kept(upper, values, e)
        ensures Written(values, e) == 0
      {
        WrittenMembers(values, e);
      }
      SortedIsUnique(twice, once);
    } else {
      var key :| key in values && upper(Key(Entry(key, values[key]))) !in values;
      var e := Entry(key, values[key]);
      assert e[|key|] == '=';
      WrittenMembers(values, e);
      assert multiset(twice)[e] > multiset(once)[e];
    }
    if ProperKeys(upper, values) {
      forall key | key in values
        ensures upper(Key(Entry(key, values[key]))) in values
      {
        KeyOfEntry(key, values[key]);
      }
    }
  }

  /** An override spelled in lower case piles up: each merge of the result adds it once more. */
  lemma {:induction false} LowerCaseOverridesPileUp(upper: string -> string, once: seq<string>, twice: seq<string>)
    requires upper("debug") == "DEBUG"
    requires var values := DEFAULTS + map["debug" := "1"];
      Merged(upper, values, [], once) && Merged(upper, values, once, twice)
    ensures twice != once
  {
    var values := DEFAULTS + map["debug" := "1"];
    KeyOfEntry("debug", "1");
    assert "debug" in values && values["debug"] == "1" && "DEBUG" !in values;
    MergeIsIdempotent(upper, values, [], once, twice);
  }
}
