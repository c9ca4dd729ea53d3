/** Client request headers: canonical names, reserved names, the byte budget and the Authorization value. */
module Headers {
  import opened Basics
  import opened Text

  const MAX_HEADER_BYTES := 8192
  const MAX_AUTHORIZATION_BYTES := 4096

  /** http.Header: names to value lists. */
  type Header = map<string, seq<string>>

  datatype HeaderError = BadName | BadValue | TooLarge | AuthorizationMissing | AuthorizationForbidden | AuthorizationMalformed

  const RESERVED: seq<string> := [
    "Authorization", "Connection", "Cookie", "Host", "Origin", "Sec-Websocket-Accept", "Sec-Websocket-Extensions",
    "Sec-Websocket-Key", "Sec-Websocket-Protocol", "Sec-Websocket-Version", "Upgrade"]

  // ----- names -----

  /** http.CanonicalHeaderKey: upper case at the start and after a hyphen, lower case elsewhere; a name
      with a byte that cannot occur in a token is left alone. */
  function Canonical(name: string): string {
    if Token(name) then Cased(name) else name
  }

  function Cased(name: string): string {
    seq(|name|, i requires 0 <= i < |name| =>
      if i == 0 || name[i - 1] == '-' then ToUpper(name[i]) else ToLower(name[i]))
  }

  /** isReservedHeader */
  predicate Reserved(name: string) {
    name in RESERVED
  }

  predicate AcceptableName(name: string) {
    Canonical(name) != "" && Canonical(name) == name && !Reserved(Canonical(name))
  }

  predicate CleanValue(value: string) {
    '\0' !in value && '\r' !in value && '\n' !in value
  }

  /** Names equal up to case get the same canonical form. */
  lemma {:induction false} CasedIgnoresCase(a: string, b: string)
    requires Fold(a) == Fold(b)
    ensures Cased(a) == Cased(b)
    ensures Token(a) <==> Token(b)
  {
    assert |a| == |Fold(a)| == |b|;
    forall i | 0 <= i < |a|
      ensures ToLower(a[i]) == ToLower(b[i])
    {
      assert Fold(a)[i] == Fold(b)[i];
    }
  }

  /** Letters and hyphens, a capital exactly at the start and after a hyphen. */
  predicate WellCasedAt(name: string, i: nat)
    requires i < |name|
  {
    if i == 0 || name[i - 1] == '-' then Upper(name[i]) else Lower(name[i]) || name[i] == '-'
  }

  lemma {:induction false} WellCasedIsCanonical(name: string)
    requires name != "" && forall i :: 0 <= i < |name| ==> WellCasedAt(name, i)
    ensures Token(name) && Cased(name) == name
  {
    forall i | 0 <= i < |name|
      ensures TokenChar(name[i]) && Cased(name)[i] == name[i]
    {
      assert WellCasedAt(name, i);
    }
  }

  lemma {:induction false} PlainReservedAreCanonical(i: nat)
    requires i < 5 || i == 10
    ensures Token(RESERVED[i]) && Cased(RESERVED[i]) == RESERVED[i]
  {
    if i == 0 { WellCasedIsCanonical("Authorization"); }
    else if i == 1 { WellCasedIsCanonical("Connection"); }
    else if i == 2 { WellCasedIsCanonical("Cookie"); }
    else if i == 3 { WellCasedIsCanonical("Host"); }
    else if i == 4 { WellCasedIsCanonical("Origin"); }
    else { WellCasedIsCanonical("Upgrade"); }
  }

  lemma {:induction false} ReservedAreCanonical(i: nat)
    requires i < |RESERVED|
    ensures Token(RESERVED[i]) && Cased(RESERVED[i]) == RESERVED[i]
  {
    if i == 5 { WellCasedIsCanonical("Sec-Websocket-Accept"); }
    else if i == 6 { WellCasedIsCanonical("Sec-Websocket-Extensions"); }
    else if i == 7 { WellCasedIsCanonical("Sec-Websocket-Key"); }
    else if i == 8 { WellCasedIsCanonical("Sec-Websocket-Protocol"); }
    else if i == 9 { WellCasedIsCanonical("Sec-Websocket-Version"); }
    else { PlainReservedAreCanonical(i); }
  }

  /** The names a client may not set, in lower case. */
  ghost predicate Forbidden(name: string) {
    name == "authorization" || name == "connection" || name == "cookie" || name == "host" || name == "origin" ||
    name == "sec-websocket-accept" || name == "sec-websocket-extensions" || name == "sec-websocket-key" ||
    name == "sec-websocket-protocol" || name == "sec-websocket-version" || name == "upgrade"
  }

  /** The place of a forbidden name in the list of reserved ones. */
  ghost function PlaceOf(name: string): nat {
    if name == "authorization" then 0 else if name == "connection" then 1 else if name == "cookie" then 2
    else if name == "host" then 3 else if name == "origin" then 4 else if name == "sec-websocket-accept" then 5
    else if name == "sec-websocket-extensions" then 6 else if name == "sec-websocket-key" then 7
    else if name == "sec-websocket-protocol" then 8 else if name == "sec-websocket-version" then 9 else 10
  }

  lemma {:induction false} PlainForbiddenAreReserved(name: string)
    requires Forbidden(name) && (PlaceOf(name) < 5 || PlaceOf(name) == 10)
    ensures CaseVariant(RESERVED[PlaceOf(name)], name)
  {
  }

  lemma {:induction false} AcceptAndKeyAreReserved(name: string)
    requires name == "sec-websocket-accept" || name == "sec-websocket-key"
    ensures CaseVariant(RESERVED[PlaceOf(name)], name)
  {
  }

  lemma {:induction false} ExtensionsAreReserved(name: string)
    requires name == "sec-websocket-extensions"
    ensures CaseVariant(RESERVED[PlaceOf(name)], name)
  {
  }

  lemma {:induction false} ProtocolAndVersionAreReserved(name: string)
    requires name == "sec-websocket-protocol" || name == "sec-websocket-version"
    ensures CaseVariant(RESERVED[PlaceOf(name)], name)
  {
  }

  lemma {:induction false} ForbiddenAreReserved(name: string)
    requires Forbidden(name)
    ensures CaseVariant(RESERVED[PlaceOf(name)], name)
  {
    if name == "sec-websocket-accept" || name == "sec-websocket-key" {
      AcceptAndKeyAreReserved(name);
    } else if name == "sec-websocket-extensions" {
      ExtensionsAreReserved(name);
    } else if name == "sec-websocket-protocol" || name == "sec-websocket-version" {
      ProtocolAndVersionAreReserved(name);
    } else {
      PlainForbiddenAreReserved(name);
    }
  }

  lemma {:induction false} ReservedAreForbidden(i: nat)
    requires i < |RESERVED|
    ensures exists name :: Forbidden(name) && CaseVariant(RESERVED[i], name)
  {
    var name := ["authorization", "connection", "cookie", "host", "origin", "sec-websocket-accept",
                 "sec-websocket-extensions", "sec-websocket-key", "sec-websocket-protocol", "sec-websocket-version",
                 "upgrade"][i];
    ForbiddenAreReserved(name);
  }

  /** No accepted name is a case variant of a reserved one (section 5.1 of RFC 9110: names are
      case-insensitive). */
  lemma {:induction false} NoReservedVariant(name: string, forbidden: string)
    requires AcceptableName(name) && Forbidden(forbidden)
    ensures !CaseVariant(name, forbidden)
  {
    var reserved := RESERVED[PlaceOf(forbidden)];
    ReservedAreCanonical(PlaceOf(forbidden));
    ForbiddenAreReserved(forbidden);
    FoldsAreCaseVariants(reserved, forbidden);
    FoldsAreCaseVariants(name, forbidden);
    if CaseVariant(name, forbidden) { CasedIgnoresCase(name, reserved); }
  }

  /** Upper case at the start and after a hyphen, lower case elsewhere, as far as there are letters. */
  ghost predicate InCanonicalCase(name: string) {
    forall i :: 0 <= i < |name| ==>
      if i == 0 || name[i - 1] == '-' then !('a' <= name[i] <= 'z') else !('A' <= name[i] <= 'Z')
  }

  lemma {:induction false} CanonicalCaseStays(name: string)
    ensures Cased(name) == name <==> InCanonicalCase(name)
  {
    forall i | 0 <= i < |name|
      ensures Cased(name)[i] == name[i] <==>
                if i == 0 || name[i - 1] == '-' then !('a' <= name[i] <= 'z') else !('A' <= name[i] <= 'Z')
    {
    }
    if Cased(name) == name {
      assert forall i :: 0 <= i < |name| ==> Cased(name)[i] == name[i];
    }
  }

  /** What a header name must be: not empty, and if it consists of token characters, in canonical case and
      no case variant of a forbidden name. */
  ghost predicate GoodName(name: string) {
    name != "" &&
    ((forall i :: 0 <= i < |name| ==> InTokenAlphabet(name[i])) ==>
       InCanonicalCase(name) && forall f :: Forbidden(f) ==> !CaseVariant(name, f))
  }

  /** What acceptance does and does not guarantee: a token is accepted exactly when it is in canonical
      case and no case variant of a forbidden name; a non-empty name that is no token is always accepted. */
  lemma {:induction false} AcceptedNames(name: string)
    ensures AcceptableName(name) <==> GoodName(name)
  {
    TokensAreListed(name);
    CanonicalCaseStays(name);
    if AcceptableName(name) {
      forall f | Forbidden(f)
        ensures !CaseVariant(name, f)
      {
        NoReservedVariant(name, f);
      }
    }
    if Reserved(name) {
      var i :| 0 <= i < |RESERVED| && RESERVED[i] == name;
      ReservedAreCanonical(i);
      ReservedAreForbidden(i);
    }
  }

  /** A name with a space in it can be no field name, and is accepted. */
  lemma {:induction false} NonTokenNameIsAccepted()
    ensures AcceptableName("X Y") && !Token("X Y")
  {
    var name := "X Y";
    assert name[1] == ' ' && !TokenChar(' ');
    AcceptedNames(name);
  }

  // ----- the byte budget -----

  /** What one name with its values adds: name and value, for every value. */
  function NameBytes(name: string, values: seq<string>): nat {
    if values == [] then 0 else NameBytes(name, values[..|values| - 1]) + |name| + |values[|values| - 1]|
  }

  ghost function BytesByName(h: Header): map<string, nat> {
    map name | name in h :: NameBytes(name, h[name])
  }

  /** The size of a header, whatever the order of its names. */
  ghost function HeaderBytes(h: Header): nat {
    Sum(BytesByName(h))
  }

  lemma {:induction false} BytesTake(h: Header, name: string)
    requires name in h
    ensures HeaderBytes(h) == NameBytes(name, h[name]) + HeaderBytes(h - {name})
  {
    SumTake(BytesByName(h), name);
    assert BytesByName(h) - {name} == BytesByName(h - {name});
  }

  lemma {:induction false} BytesSet(h: Header, name: string, values: seq<string>)
    requires name !in h
    ensures HeaderBytes(h[name := values]) == HeaderBytes(h) + NameBytes(name, values)
  {
    SumUpdate(BytesByName(h), name, NameBytes(name, values));
    assert BytesByName(h[name := values]) == BytesByName(h)[name := NameBytes(name, values)];
  }

  /** normalizedHeaderBytes */
  method NormalizedHeaderBytes(headers: Header) returns (total: nat)
    ensures total == HeaderBytes(headers)
  {
    total := 0;
    var rest := headers;
    while rest.Keys != {}
      invariant total + HeaderBytes(rest) == HeaderBytes(headers)
      decreases |rest|
    {
      var name :| name in rest.Keys;
      BytesTake(rest, name);
      var values, before := rest[name], total;
      for i := 0 to |values|
        invariant total == before + NameBytes(name, values[..i])
      {
        total := total + |name| + |values[i]|;
        assert values[..i + 1][..i] == values[..i];
      }
      assert values[..|values|] == values;
      rest := rest - {name};
    }
    assert rest == map[];
  }

  /** The header without names that have no values. */
  function Compact(h: Header): Header {
    map name | name in h && h[name] != [] :: h[name]
  }

  predicate CleanValues(values: seq<string>) {
    forall i :: 0 <= i < |values| ==> CleanValue(values[i])
  }

  ghost predicate NamesOk(h: Header) {
    forall name :: name in h ==> GoodName(name)
  }

  /** No byte in a value that could end it. */
  ghost predicate GoodValue(value: string) {
    forall i :: 0 <= i < |value| ==> value[i] !in {'\0', '\r', '\n'}
  }

  ghost predicate ValuesOk(h: Header) {
    forall name :: name in h ==> forall i :: 0 <= i < |h[name]| ==> GoodValue(h[name][i])
  }

  lemma {:induction false} CleanMeansGood(value: string)
    ensures CleanValue(value) <==> GoodValue(value)
  {
    if GoodValue(value) {
      forall c | c in value
        ensures c !in {'\0', '\r', '\n'}
      {
        var i :| 0 <= i < |value| && value[i] == c;
      }
    } else {
      assert forall i :: 0 <= i < |value| ==> value[i] in value;
    }
  }

  lemma {:induction false} CleanValuesAreGood(values: seq<string>)
    ensures CleanValues(values) <==> forall i :: 0 <= i < |values| ==> GoodValue(values[i])
  {
    forall i | 0 <= i < |values|
      ensures CleanValue(values[i]) <==> GoodValue(values[i])
    {
      CleanMeansGood(values[i]);
    }
  }

  lemma {:induction false} CompactWithout(h: Header, name: string)
    requires name in h
    ensures Compact(h) == if h[name] == [] then Compact(h - {name}) else Compact(h - {name})[name := h[name]]
    ensures name !in Compact(h - {name})
  {
  }

  lemma {:induction false} NamesWithoutValuesWeighNothing(h: Header)
    ensures HeaderBytes(Compact(h)) == HeaderBytes(h)
    decreases |h|
  {
    if h == map[] {
      assert Compact(h) == map[];
    } else {
      var name :| name in h;
      BytesTake(h, name);
      CompactWithout(h, name);
      NamesWithoutValuesWeighNothing(h - {name});
      if h[name] != [] { BytesSet(Compact(h - {name}), name, h[name]); }
    }
  }

  // ----- what is found wrong, in a given order of the names -----

  /** The first value that is unclean or goes over the budget, of which `spent` is used up. */
  function ValueFault(name: string, values: seq<string>, spent: nat): Option<HeaderError> {
    if values == [] then None
    else
      var last := |values| - 1;
      var before := ValueFault(name, values[..last], spent);
      if before.Some? then before
      else if !CleanValue(values[last]) then Some(BadValue)
      else if spent + NameBytes(name, values) > MAX_HEADER_BYTES then Some(TooLarge)
      else None
  }

  /** The bytes of the names listed. */
  function Spent(source: Header, order: seq<string>): nat {
    if order == [] then 0
    else
      var name := order[|order| - 1];
      Spent(source, order[..|order| - 1]) + (if name in source then NameBytes(name, source[name]) else 0)
  }

  /** The first fault of a header whose names are visited in the given order. */
  function HeaderFault(source: Header, order: seq<string>): Option<HeaderError> {
    if order == [] then None
    else
      var before, name := order[..|order| - 1], order[|order| - 1];
      if HeaderFault(source, before).Some? then HeaderFault(source, before)
      else if name !in source then None
      else if !AcceptableName(name) then Some(BadName)
      else ValueFault(name, source[name], Spent(source, before))
  }

  /** The list names everything in the header, once: an order in which the map may be visited. */
  ghost predicate VisitOrder(h: Header, order: seq<string>) {
    Distinct(order) && forall name :: name in h <==> name in order
  }

  lemma {:induction false} FaultlessValues(name: string, values: seq<string>, spent: nat)
    requires spent <= MAX_HEADER_BYTES
    ensures ValueFault(name, values, spent).None? <==>
              CleanValues(values) && spent + NameBytes(name, values) <= MAX_HEADER_BYTES
    ensures ValueFault(name, values, spent) == Some(BadValue) ==> !CleanValues(values)
    ensures ValueFault(name, values, spent) == Some(TooLarge) ==> spent + NameBytes(name, values) > MAX_HEADER_BYTES
    ensures ValueFault(name, values, spent).Some? ==>
              ValueFault(name, values, spent).value.BadValue? || ValueFault(name, values, spent).value.TooLarge?
  {
    if values != [] { FaultlessValues(name, values[..|values| - 1], spent); }
  }

  lemma {:induction false} SpentGrows(source: Header, order: seq<string>, name: string)
    requires name in source
    ensures Spent(source, order + [name]) == Spent(source, order) + NameBytes(name, source[name])
    ensures HeaderFault(source, order + [name]) ==
              if HeaderFault(source, order).Some? then HeaderFault(source, order)
              else if !AcceptableName(name) then Some(BadName)
              else ValueFault(name, source[name], Spent(source, order))
  {
    assert (order + [name])[..|order|] == order;
  }

  ghost predicate AllOk(source: Header, order: seq<string>) {
    forall i :: 0 <= i < |order| ==> AcceptableName(order[i]) && order[i] in source && CleanValues(source[order[i]])
  }

  lemma {:induction false} FaultlessOrder(source: Header, order: seq<string>)
    requires forall i :: 0 <= i < |order| ==> order[i] in source
    ensures HeaderFault(source, order).None? <==> AllOk(source, order) && Spent(source, order) <= MAX_HEADER_BYTES
    ensures HeaderFault(source, order) == Some(TooLarge) ==> Spent(source, order) > MAX_HEADER_BYTES
    ensures HeaderFault(source, order) == Some(BadName) ==> exists i :: 0 <= i < |order| && !AcceptableName(order[i])
    ensures HeaderFault(source, order) == Some(BadValue) ==>
              exists i :: 0 <= i < |order| && !CleanValues(source[order[i]])
    ensures HeaderFault(source, order).Some? ==> HeaderFault(source, order).value in {BadName, BadValue, TooLarge}
  {
    if order != [] {
      var before, name := order[..|order| - 1], order[|order| - 1];
      FaultlessOrder(source, before);
      if Spent(source, before) <= MAX_HEADER_BYTES { FaultlessValues(name, source[name], Spent(source, before)); }
      assert order == before + [name];
      SpentGrows(source, before, name);
    }
  }

  lemma {:induction false} SpentIsHeaderBytes(source: Header, part: Header, order: seq<string>)
    requires PartOf(part, source) && VisitOrder(part, order)
    ensures Spent(source, order) == HeaderBytes(part)
  {
    if order == [] {
      assert part == map[];
    } else {
      var before, name := order[..|order| - 1], order[|order| - 1];
      assert order == before + [name] && name in order;
      DropLastName(part, before, name);
      SpentIsHeaderBytes(source, part - {name}, before);
      BytesTake(part, name);
    }
  }

  lemma {:induction false} DropLastName(part: Header, before: seq<string>, name: string)
    requires VisitOrder(part, before + [name])
    ensures name in part && VisitOrder(part - {name}, before)
  {
    var order := before + [name];
    assert forall x :: x in order <==> x in before || x == name;
    assert order[|before|] == name;
    forall i | 0 <= i < |before|
      ensures before[i] != name
    {
      assert order[i] == before[i];
    }
    forall i, j | 0 <= i < j < |before|
      ensures before[i] != before[j]
    {
      assert order[i] == before[i] && order[j] == before[j];
    }
  }

  /** The verdict does not depend on the order in which the map is visited, and whatever fault an order
      brings to light is there. */
  lemma {:induction false} VerdictForgetsOrder(source: Header, order: seq<string>)
    requires VisitOrder(source, order)
    ensures HeaderFault(source, order).None? <==>
              NamesOk(source) && ValuesOk(source) && HeaderBytes(source) <= 8192
    ensures HeaderFault(source, order) == Some(BadName) ==> !NamesOk(source)
    ensures HeaderFault(source, order) == Some(BadValue) ==> !ValuesOk(source)
    ensures HeaderFault(source, order) == Some(TooLarge) ==> HeaderBytes(source) > 8192
    ensures HeaderFault(source, order).Some? ==> HeaderFault(source, order).value in {BadName, BadValue, TooLarge}
  {
    assert forall i :: 0 <= i < |order| ==> order[i] in order;
    forall name | name in source
      ensures AcceptableName(name) <==> GoodName(name)
      ensures CleanValues(source[name]) <==> forall i :: 0 <= i < |source[name]| ==> GoodValue(source[name][i])
    {
      AcceptedNames(name);
      CleanValuesAreGood(source[name]);
    }
    FaultlessOrder(source, order);
    SpentIsHeaderBytes(source, source, order);
    assert AllOk(source, order) <==> NamesOk(source) && ValuesOk(source) by {
      if AllOk(source, order) {
        forall name | name in source
          ensures GoodName(name) && CleanValues(source[name])
        {
          var i :| 0 <= i < |order| && order[i] == name;
        }
      }
    }
  }

  lemma {:induction false} FaultLasts(source: Header, order: seq<string>, n: nat)
    requires n <= |order| && HeaderFault(source, order[..n]).Some?
    ensures HeaderFault(source, order) == HeaderFault(source, order[..n])
  {
    if n == |order| {
      assert order[..n] == order;
    } else {
      assert order[..|order| - 1][..n] == order[..n];
      FaultLasts(source, order[..|order| - 1], n);
    }
  }

  /** Any beginning of a visit can be completed. */
  lemma {:induction false} VisitCanGoOn(source: Header, rest: Header, visited: seq<string>) returns (order: seq<string>)
    requires PartOf(rest, source) && VisitOrder(source - rest.Keys, visited)
    ensures VisitOrder(source, order) && visited <= order
    decreases |rest|
  {
    if rest == map[] {
      order := visited;
      assert source - rest.Keys == source;
    } else {
      var name :| name in rest;
      VisitOne(source, rest, name, visited);
      order := VisitCanGoOn(source, rest - {name}, visited + [name]);
      assert visited <= visited + [name];
    }
  }

  ghost predicate PartOf(rest: Header, source: Header) {
    forall name :: name in rest ==> name in source && rest[name] == source[name]
  }

  lemma {:induction false} VisitOne(source: Header, rest: Header, name: string, visited: seq<string>)
    requires name in rest && PartOf(rest, source) && VisitOrder(source - rest.Keys, visited)
    ensures PartOf(rest - {name}, source) && VisitOrder(source - (rest - {name}).Keys, visited + [name])
    ensures name !in visited
  {
    var before, after := source - rest.Keys, source - (rest - {name}).Keys;
    assert forall n :: n in after <==> n in before || n == name;
    assert name !in before;
    var longer := visited + [name];
    assert forall n :: n in longer <==> n in visited || n == name;
    forall i, j | 0 <= i < j < |longer|
      ensures longer[i] != longer[j]
    {
      assert longer[i] == visited[i] && visited[i] in visited;
      if j < |visited| { assert longer[j] == visited[j]; }
    }
  }

  /** The values of one name, checked and copied one by one against the budget. */
  method AppendValues(name: string, values: seq<string>, into: Header, spent: nat)
    returns (out: Header, total: nat, problem: Option<HeaderError>)
    requires name !in into
    ensures problem == ValueFault(name, values, spent)
    ensures problem.None? ==> total == spent + NameBytes(name, values) &&
                              out == if values == [] then into else into[name := values]
  {
    out, total, problem := into, spent, None;
    for i := 0 to |values|
      invariant problem.None? && ValueFault(name, values[..i], spent).None?
      invariant total == spent + NameBytes(name, values[..i])
      invariant out == if i == 0 then into else into[name := values[..i]]
    {
      assert values[..i + 1][..i] == values[..i];
      if !CleanValue(values[i]) {
        ValueFaultLasts(name, values, spent, i + 1);
        problem := Some(BadValue);
        return;
      }
      total := total + |name| + |values[i]|;
      if total > MAX_HEADER_BYTES {
        ValueFaultLasts(name, values, spent, i + 1);
        problem := Some(TooLarge);
        return;
      }
      out := out[name := (if name in out then out[name] else []) + [values[i]]];
      assert values[..i + 1] == values[..i] + [values[i]];
    }
    assert values[..|values|] == values;
  }

  lemma {:induction false} ValueFaultLasts(name: string, values: seq<string>, spent: nat, n: nat)
    requires n <= |values| && ValueFault(name, values[..n], spent).Some?
    ensures ValueFault(name, values, spent) == ValueFault(name, values[..n], spent)
  {
    if n == |values| {
      assert values[..n] == values;
    } else {
      assert values[..|values| - 1][..n] == values[..n];
      ValueFaultLasts(name, values[..|values| - 1], spent, n);
    }
  }

  lemma {:induction false} CompactGrows(source: Header, rest: Header, name: string)
    requires name in rest && PartOf(rest, source)
    ensures Compact(source - (rest - {name}).Keys) ==
              if source[name] == [] then Compact(source - rest.Keys)
              else Compact(source - rest.Keys)[name := source[name]]
    ensures name !in Compact(source - rest.Keys)
  {
    var before, after := source - rest.Keys, source - (rest - {name}).Keys;
    assert after == before[name := source[name]];
  }

  /** The fault met after a beginning of the visit is the first fault of a whole visit. */
  lemma {:induction false} FaultOfVisit(source: Header, rest: Header, visited: seq<string>, name: string)
    requires name in rest && PartOf(rest, source) && VisitOrder(source - rest.Keys, visited)
    requires HeaderFault(source, visited + [name]).Some?
    ensures exists order :: VisitOrder(source, order) && HeaderFault(source, order) == HeaderFault(source, visited + [name])
  {
    VisitOne(source, rest, name, visited);
    var order := VisitCanGoOn(source, rest - {name}, visited + [name]);
    var n := |visited| + 1;
    assert order[..n] == visited + [name];
    FaultLasts(source, order, n);
  }

  /** normalizeHeaders. The names come in whatever order the map gives them: the verdict and the resulting
      header do not depend on it, and an error is the first fault in that order. */
  method NormalizeHeaders(source: Header) returns (r: Result<Header, HeaderError>)
    ensures r.Ok? <==> NamesOk(source) && ValuesOk(source) && HeaderBytes(source) <= 8192
    ensures r.Ok? ==> r.value == Compact(source)
    ensures r.Err? ==> exists order :: VisitOrder(source, order) && HeaderFault(source, order) == Some(r.error)
  {
    var normalized: Header := map[];
    var total: nat := 0;
    var rest := source;
    ghost var visited: seq<string> := [];
    assert source - rest.Keys == map[];
    while rest.Keys != {}
      invariant PartOf(rest, source) && VisitOrder(source - rest.Keys, visited)
      invariant normalized == Compact(source - rest.Keys)
      invariant total == Spent(source, visited) && HeaderFault(source, visited).None?
      decreases |rest|
    {
      var name :| name in rest.Keys;
      VisitOne(source, rest, name, visited);
      SpentGrows(source, visited, name);
      CompactGrows(source, rest, name);
      var problem: Option<HeaderError>;
      if !AcceptableName(name) {
        problem := Some(BadName);
      } else {
        normalized, total, problem := AppendValues(name, rest[name], normalized, total);
      }
      if problem.Some? {
        RefusedVisit(source, rest, visited, name);
        return Err(problem.value);
      }
      rest, visited := rest - {name}, visited + [name];
    }
    assert rest == map[];
    assert source - rest.Keys == source;
    VerdictForgetsOrder(source, visited);
    return Ok(normalized);
  }

  lemma {:induction false} RefusedVisit(source: Header, rest: Header, visited: seq<string>, name: string)
    requires name in rest && PartOf(rest, source) && VisitOrder(source - rest.Keys, visited)
    requires HeaderFault(source, visited + [name]).Some?
    ensures !(NamesOk(source) && ValuesOk(source) && HeaderBytes(source) <= 8192)
    ensures exists order :: VisitOrder(source, order) && HeaderFault(source, order) == HeaderFault(source, visited + [name])
  {
    FaultOfVisit(source, rest, visited, name);
    var order :| VisitOrder(source, order) && HeaderFault(source, order) == HeaderFault(source, visited + [name]);
    VerdictForgetsOrder(source, order);
  }

  // ----- the Authorization value -----

  /** normalizeAuthorization; `trimmed` tells whether strings.TrimSpace leaves a string alone. */
  function NormalizeAuthorization(trimmed: string -> bool, value: string, allowAnonymous: bool): Result<string, HeaderError> {
    if value == "" then (if allowAnonymous then Ok("") else Err(AuthorizationMissing))
    else if allowAnonymous then Err(AuthorizationForbidden)
    else if |value| > MAX_AUTHORIZATION_BYTES || !trimmed(value) || !CleanValue(value) || '\t' in value then
      Err(AuthorizationMalformed)
    else
      var space := IndexOf(value, ' ');
      if space == |value| || !Token(value[..space]) || value[space + 1..] == "" || value[space + 1] == ' ' then
        Err(AuthorizationMalformed)
      else Ok(value)
  }

  /** A scheme and credentials, separated by one space (section 11.6.2 of RFC 9110). */
  ghost predicate Credentials(value: string, scheme: string, credential: string) {
    value == scheme + " " + credential && credential != "" && credential[0] != ' ' &&
    scheme != "" && forall i :: 0 <= i < |scheme| ==> InTokenAlphabet(scheme[i])
  }

  /** A value that may be sent: of bounded length, without stray bytes, scheme and credentials. */
  ghost predicate GoodAuthorization(trimmed: string -> bool, value: string) {
    1 <= |value| <= 4096 && trimmed(value) &&
    (forall i :: 0 <= i < |value| ==> value[i] !in {'\0', '\r', '\n', '\t'}) &&
    exists scheme, credential :: Credentials(value, scheme, credential)
  }

  lemma {:induction false} CredentialsSplit(value: string, scheme: string, credential: string)
    requires Credentials(value, scheme, credential)
    ensures Token(scheme) && |scheme| == IndexOf(value, ' ') < |value| - 1
    ensures scheme == value[..|scheme|] && credential == value[|scheme| + 1..]
  {
    TokensAreListed(scheme);
    assert ' ' !in scheme by {
      forall i | 0 <= i < |scheme|
        ensures scheme[i] != ' '
      {
        assert TokenChar(scheme[i]);
      }
    }
    IndexOfIsFirst(scheme, ' ', credential);
  }

  /** There is one way at most to read a value as scheme and credentials. */
  lemma {:induction false} CredentialsAreUnique(value: string, s: string, c: string, s': string, c': string)
    requires Credentials(value, s, c) && Credentials(value, s', c')
    ensures s == s' && c == c'
  {
    CredentialsSplit(value, s, c);
    CredentialsSplit(value, s', c');
  }

  /** Where the value splits at the first space. */
  predicate SplitsWell(value: string) {
    var space := IndexOf(value, ' ');
    space < |value| && Token(value[..space]) && value[space + 1..] != "" && value[space + 1] != ' '
  }

  lemma {:induction false} SplitsWellMeans(value: string)
    ensures SplitsWell(value) <==> exists scheme, credential :: Credentials(value, scheme, credential)
  {
    var space := IndexOf(value, ' ');
    if SplitsWell(value) {
      TokensAreListed(value[..space]);
      assert value == value[..space] + " " + value[space + 1..];
      assert Credentials(value, value[..space], value[space + 1..]);
    }
    forall scheme, credential | Credentials(value, scheme, credential)
      ensures SplitsWell(value)
    {
      CredentialsSplit(value, scheme, credential);
    }
  }

  lemma {:induction false} NoStrayBytes(value: string)
    ensures CleanValue(value) && '\t' !in value <==>
              forall i :: 0 <= i < |value| ==> value[i] !in {'\0', '\r', '\n', '\t'}
  {
    CleanMeansGood(value);
    if '\t' !in value { assert forall i :: 0 <= i < |value| ==> value[i] in value; }
  }

  /** What is accepted, and which error says what: nothing exactly for anonymous access, a good value
      exactly without it. */
  lemma {:induction false} AcceptedAuthorization(trimmed: string -> bool, value: string, allowAnonymous: bool)
    ensures var r := NormalizeAuthorization(trimmed, value, allowAnonymous);
      (r.Ok? <==> if value == "" then allowAnonymous else !allowAnonymous && GoodAuthorization(trimmed, value)) &&
      (r.Ok? ==> r.value == value) &&
      (r == Err(AuthorizationMissing) <==> value == "" && !allowAnonymous) &&
      (r == Err(AuthorizationForbidden) <==> value != "" && allowAnonymous) &&
      (r == Err(AuthorizationMalformed) <==> value != "" && !allowAnonymous && !GoodAuthorization(trimmed, value))
  {
    NoStrayBytes(value);
    SplitsWellMeans(value);
    assert value == "" || GoodAuthorization(trimmed, value) <==>
      value == "" || (|value| <= 4096 && trimmed(value) && CleanValue(value) && '\t' !in value && SplitsWell(value));
  }

  // ----- the client's final header -----

  const AUTHORIZATION := "Authorization"

  /** The fault that is reported, for a given order of the header's names: the first of the header, then
      the Authorization value, then the sum of both. */
  function ClientFault(trimmed: string -> bool, source: Header, order: seq<string>, authorization: string,
                       allowAnonymous: bool): Option<HeaderError>
  {
    var value := NormalizeAuthorization(trimmed, authorization, allowAnonymous);
    if HeaderFault(source, order).Some? then HeaderFault(source, order)
    else if value.Err? then Some(value.error)
    else if authorization != "" && Spent(source, order) + |AUTHORIZATION| + |authorization| > MAX_HEADER_BYTES then
      Some(TooLarge)
    else None
  }

  lemma {:induction false} AnyVisit(source: Header) returns (order: seq<string>)
    ensures VisitOrder(source, order)
  {
    assert source - source.Keys == map[];
    order := VisitCanGoOn(source, source, []);
  }

  /** The header part of normalizeClientConfig: what is sent, Authorization included, fits the budget. */
  method ClientHeaders(trimmed: string -> bool, source: Header, authorization: string, allowAnonymous: bool)
    returns (r: Result<Header, HeaderError>)
    ensures r.Ok? <==> NamesOk(source) && ValuesOk(source) &&
                       (if authorization == "" then allowAnonymous
                        else !allowAnonymous && GoodAuthorization(trimmed, authorization)) &&
                       HeaderBytes(source) + (if authorization == "" then 0 else 13 + |authorization|) <= 8192
    ensures r.Err? ==> exists order :: VisitOrder(source, order) &&
                         ClientFault(trimmed, source, order, authorization, allowAnonymous) == Some(r.error)
    ensures r.Ok? ==> HeaderBytes(r.value) <= 8192
    ensures r.Ok? ==> "Authorization" !in source
    ensures r.Ok? ==> r.value == if authorization == "" then Compact(source)
                                 else Compact(source)["Authorization" := [authorization]]
    ensures NamesOk(source) && ValuesOk(source) && HeaderBytes(source) <= 8192 ==>
              (r == Err(AuthorizationMissing) <==> authorization == "" && !allowAnonymous) &&
              (r == Err(AuthorizationForbidden) <==> authorization != "" && allowAnonymous) &&
              (r == Err(AuthorizationMalformed) <==>
                 authorization != "" && !allowAnonymous && !GoodAuthorization(trimmed, authorization))
  {
    AcceptedAuthorization(trimmed, authorization, allowAnonymous);
    var headers := NormalizeHeaders(source);
    if headers.Err? {
      return headers;
    }
    ghost var order := AnyVisit(source);
    VerdictForgetsOrder(source, order);
    SpentIsHeaderBytes(source, source, order);
    var value := NormalizeAuthorization(trimmed, authorization, allowAnonymous);
    if value.Err? {
      assert ClientFault(trimmed, source, order, authorization, allowAnonymous) == Some(value.error);
      return Err(value.error);
    }
    NamesWithoutValuesWeighNothing(source);
    AuthorizationIsReserved(source);
    if authorization == "" {
      return headers;
    }
    var spent := NormalizedHeaderBytes(headers.value);
    if spent + |AUTHORIZATION| + |authorization| > MAX_HEADER_BYTES {
      assert ClientFault(trimmed, source, order, authorization, allowAnonymous) == Some(TooLarge);
      return Err(TooLarge);
    }
    BytesSet(headers.value, AUTHORIZATION, [authorization]);
    OneValue(AUTHORIZATION, authorization);
    return Ok(headers.value[AUTHORIZATION := [authorization]]);
  }

  lemma {:induction false} OneValue(name: string, value: string)
    ensures NameBytes(name, [value]) == |name| + |value|
  {
    assert [value][..0] == [];
  }

  lemma {:induction false} AuthorizationIsReserved(source: Header)
    requires NamesOk(source)
    ensures AUTHORIZATION !in source
  {
    assert RESERVED[0] == AUTHORIZATION;
    assert Reserved(AUTHORIZATION);
    assert !AcceptableName(AUTHORIZATION) by { ReservedAreCanonical(0); }
    AcceptedNames(AUTHORIZATION);
  }
}
