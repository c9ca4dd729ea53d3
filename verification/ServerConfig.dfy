/** normalizeServerConfig and its parts: origins, subprotocols, compression, limits and the exclusions
    between authentication, anonymous access and any-origin. */
module ServerConfig {
  import opened Basics
  import opened Text

  const DEFAULT_MAX_MESSAGE := 0x10_0000
  const MAX_MESSAGE := 0x100_0000
  const DEFAULT_MAX_CONNECTIONS := 256
  const MAX_CONNECTIONS := 4096
  const MAX_ORIGINS := 32
  const MAX_SUBPROTOCOLS := 32
  const MAX_IDENTITY := 255
  const DEFAULT_COMPRESSION_AT := 512
  const MIN_COMPRESSION_AT := 256
  const MILLISECOND := 1_000_000
  const DEFAULT_CLOSE_TIMEOUT := 5_000 * MILLISECOND
  const MAX_CLOSE_TIMEOUT := 30_000 * MILLISECOND

  /** Verdicts of the standard library: path.Match accepts a pattern, strings.TrimSpace leaves it alone. */
  datatype Library = Library(patternOk: string -> bool, trimmed: string -> bool)

  datatype ConfigError =
    | AuthenticationRequired
    | AuthenticationExclusive
    | AnyOriginNeedsAuthentication
    | MessageLimit
    | ConnectionLimit
    | OriginsExclusive
    | TooManyOrigins
    | UnsafeOrigin
    | MalformedOrigin
    | DuplicateOrigin(pattern: string)
    | TooManySubprotocols
    | BadSubprotocol
    | DuplicateSubprotocol(protocol: string)
    | ThresholdWithoutCompression
    | ThresholdRange
    | TimeoutRange

  // ----- origins -----

  predicate SafePattern(lib: Library, p: string) {
    p != "*" && p != "" && |p| <= MAX_IDENTITY && lib.trimmed(p) &&
    '\0' !in p && '\r' !in p && '\n' !in p && '\t' !in p && ' ' !in p
  }

  /** What the loop finds wrong at one position of the sorted copy. */
  function OriginFault(lib: Library, sorted: seq<string>, i: nat): Option<ConfigError>
    requires i < |sorted|
  {
    if !SafePattern(lib, sorted[i]) then Some(UnsafeOrigin)
    else if !lib.patternOk(sorted[i]) then Some(MalformedOrigin)
    else if i > 0 && sorted[i] == sorted[i - 1] then Some(DuplicateOrigin(sorted[i]))
    else None
  }

  function FirstOriginFault(lib: Library, sorted: seq<string>, from: nat): Option<ConfigError>
    requires from <= |sorted|
    decreases |sorted| - from
  {
    if from == |sorted| then None
    else if OriginFault(lib, sorted, from).Some? then OriginFault(lib, sorted, from)
    else FirstOriginFault(lib, sorted, from + 1)
  }

  /** The result of normalizeOrigins. */
  function Origins(lib: Library, patterns: seq<string>, allowAny: bool): Result<seq<string>, ConfigError> {
    if allowAny && patterns != [] then Err(OriginsExclusive)
    else if |patterns| > MAX_ORIGINS then Err(TooManyOrigins)
    else
      var fault := FirstOriginFault(lib, Sort(patterns), 0);
      if fault.Some? then Err(fault.value) else Ok(Sort(patterns))
  }

  /** An origin pattern as it should be: not any host, not empty, of bounded length, without spaces or
      control bytes that could split a header, and well formed. */
  ghost predicate GoodOrigin(lib: Library, p: string) {
    p != "*" && 1 <= |p| <= 255 && lib.trimmed(p) && lib.patternOk(p) &&
    forall i :: 0 <= i < |p| ==> p[i] !in {'\0', '\r', '\n', '\t', ' '}
  }

  ghost predicate GoodOrigins(lib: Library, patterns: seq<string>, allowAny: bool) {
    (allowAny ==> patterns == []) && |patterns| <= 32 && Distinct(patterns) &&
    forall p :: p in patterns ==> GoodOrigin(lib, p)
  }

  lemma {:induction false} SafePatternsAreGood(lib: Library, p: string)
    ensures GoodOrigin(lib, p) <==> SafePattern(lib, p) && lib.patternOk(p)
  {
    if GoodOrigin(lib, p) {
      forall c | c in p
        ensures c !in {'\0', '\r', '\n', '\t', ' '}
      {
        var i :| 0 <= i < |p| && p[i] == c;
      }
    } else {
      assert forall i :: 0 <= i < |p| ==> p[i] in p;
    }
  }

  /** normalizeOrigins: copy, sort, then one pass that compares neighbours. */
  method NormalizeOrigins(lib: Library, patterns: seq<string>, allowAny: bool)
    returns (r: Result<seq<string>, ConfigError>)
    ensures r == Origins(lib, patterns, allowAny)
    ensures r.Ok? <==> GoodOrigins(lib, patterns, allowAny)
    ensures r.Ok? ==> StrictlyIncreasing(r.value) && multiset(r.value) == multiset(patterns)
  {
    OriginsAccepted(lib, patterns, allowAny);
    if allowAny && |patterns| != 0 {
      return Err(OriginsExclusive);
    }
    if |patterns| > MAX_ORIGINS {
      return Err(TooManyOrigins);
    }
    var normalized := Sort(patterns);
    for index := 0 to |normalized|
      invariant FirstOriginFault(lib, normalized, 0) == FirstOriginFault(lib, normalized, index)
    {
      var pattern := normalized[index];
      if !SafePattern(lib, pattern) {
        return Err(UnsafeOrigin);
      }
      if !lib.patternOk(pattern) {
        return Err(MalformedOrigin);
      }
      if index > 0 && pattern == normalized[index - 1] {
        return Err(DuplicateOrigin(pattern));
      }
    }
    return Ok(normalized);
  }

  lemma {:induction false} NoOriginFault(lib: Library, sorted: seq<string>, from: nat)
    requires from <= |sorted|
    ensures FirstOriginFault(lib, sorted, from).None? <==>
              forall i :: from <= i < |sorted| ==> OriginFault(lib, sorted, i).None?
    decreases |sorted| - from
  {
    if from < |sorted| { NoOriginFault(lib, sorted, from + 1); }
  }

  lemma {:induction false} FaultlessOrigins(lib: Library, sorted: seq<string>)
    ensures FirstOriginFault(lib, sorted, 0).None? <==>
              NoAdjacentDuplicates(sorted) && forall p :: p in sorted ==> SafePattern(lib, p) && lib.patternOk(p)
  {
    NoOriginFault(lib, sorted, 0);
    if FirstOriginFault(lib, sorted, 0).None? {
      forall i | 0 <= i < |sorted|
        ensures SafePattern(lib, sorted[i]) && lib.patternOk(sorted[i]) && (i > 0 ==> sorted[i] != sorted[i - 1])
      {
        assert OriginFault(lib, sorted, i).None?;
      }
    }
  }

  /** The neighbour test on the sorted copy accepts exactly the duplicate-free lists. */
  lemma {:induction false} OriginsAccepted(lib: Library, patterns: seq<string>, allowAny: bool)
    ensures Origins(lib, patterns, allowAny).Ok? <==> GoodOrigins(lib, patterns, allowAny)
    ensures Origins(lib, patterns, allowAny).Ok? ==>
              Origins(lib, patterns, allowAny).value == Sort(patterns) && StrictlyIncreasing(Sort(patterns))
  {
    FaultlessOrigins(lib, Sort(patterns));
    forall p
      ensures GoodOrigin(lib, p) <==> SafePattern(lib, p) && lib.patternOk(p)
    {
      SafePatternsAreGood(lib, p);
    }
    SortedNeighboursShowDuplicates(patterns);
    DistinctForgetsOrder(patterns, Sort(patterns));
    SameMembers(patterns, Sort(patterns));
  }

  lemma {:induction false} SameMembers(a: seq<string>, b: seq<string>)
    requires multiset(a) == multiset(b)
    ensures forall x :: x in a <==> x in b
  {
    forall x
      ensures x in a <==> x in b
    {
      assert x in a <==> x in multiset(a);
      assert x in b <==> x in multiset(b);
    }
  }

  /** The order in which origins are listed changes neither the result nor the error. */
  lemma {:induction false} OriginsForgetOrder(lib: Library, a: seq<string>, b: seq<string>, allowAny: bool)
    requires multiset(a) == multiset(b)
    ensures Origins(lib, a, allowAny) == Origins(lib, b, allowAny)
  {
    SortForgetsOrder(a, b);
    assert |a| == |Sort(a)| == |b|;
  }

  // ----- subprotocols -----

  predicate GoodProtocol(protocol: string) {
    |protocol| <= MAX_IDENTITY && Token(protocol)
  }

  function ProtocolFault(protocols: seq<string>, i: nat): Option<ConfigError>
    requires i < |protocols|
  {
    if !GoodProtocol(protocols[i]) then Some(BadSubprotocol)
    else if protocols[i] in protocols[..i] then Some(DuplicateSubprotocol(protocols[i]))
    else None
  }

  function FirstProtocolFault(protocols: seq<string>, from: nat): Option<ConfigError>
    requires from <= |protocols|
    decreases |protocols| - from
  {
    if from == |protocols| then None
    else if ProtocolFault(protocols, from).Some? then ProtocolFault(protocols, from)
    else FirstProtocolFault(protocols, from + 1)
  }

  /** The result of normalizeSubprotocols: the list itself, if nothing is wrong with it. */
  function Subprotocols(protocols: seq<string>): Result<seq<string>, ConfigError> {
    if |protocols| > MAX_SUBPROTOCOLS then Err(TooManySubprotocols)
    else
      var fault := FirstProtocolFault(protocols, 0);
      if fault.Some? then Err(fault.value) else Ok(protocols)
  }

  ghost predicate GoodProtocols(protocols: seq<string>) {
    |protocols| <= 32 && Distinct(protocols) &&
    forall i :: 0 <= i < |protocols| ==> 1 <= |protocols[i]| <= 255 && OfTokenAlphabet(protocols[i])
  }

  ghost predicate OfTokenAlphabet(s: string) {
    forall i :: 0 <= i < |s| ==> InTokenAlphabet(s[i])
  }

  /** The inner loop: the entry at `index` against all earlier ones. */
  method OccursBefore(protocols: seq<string>, index: nat) returns (found: bool)
    requires index < |protocols|
    ensures found <==> protocols[index] in protocols[..index]
  {
    for prior := 0 to index
      invariant forall k :: 0 <= k < prior ==> protocols[k] != protocols[index]
    {
      if protocols[index] == protocols[prior] {
        assert protocols[..index][prior] == protocols[index];
        return true;
      }
    }
    return false;
  }

  /** normalizeSubprotocols: every entry against all earlier ones. Distinct tokens pass unchanged, as
      section 4.1 of RFC 6455 asks, and the sort-and-compare-neighbours test would agree. */
  method NormalizeSubprotocols(protocols: seq<string>) returns (r: Result<seq<string>, ConfigError>)
    ensures r == Subprotocols(protocols)
    ensures r.Ok? <==> GoodProtocols(protocols)
    ensures r.Ok? ==> r.value == protocols && NoAdjacentDuplicates(Sort(protocols))
  {
    SubprotocolsAccepted(protocols);
    SortedNeighboursShowDuplicates(protocols);
    if |protocols| > MAX_SUBPROTOCOLS {
      return Err(TooManySubprotocols);
    }
    for index := 0 to |protocols|
      invariant FirstProtocolFault(protocols, 0) == FirstProtocolFault(protocols, index)
    {
      var protocol := protocols[index];
      if !GoodProtocol(protocol) {
        return Err(BadSubprotocol);
      }
      var repeated := OccursBefore(protocols, index);
      if repeated {
        return Err(DuplicateSubprotocol(protocol));
      }
    }
    return Ok(protocols);
  }

  lemma {:induction false} NoProtocolFault(protocols: seq<string>, from: nat)
    requires from <= |protocols|
    ensures FirstProtocolFault(protocols, from).None? <==>
              forall i :: from <= i < |protocols| ==> ProtocolFault(protocols, i).None?
    decreases |protocols| - from
  {
    if from < |protocols| { NoProtocolFault(protocols, from + 1); }
  }

  lemma {:induction false} SubprotocolsAccepted(protocols: seq<string>)
    ensures Subprotocols(protocols).Ok? <==> GoodProtocols(protocols)
  {
    NoProtocolFault(protocols, 0);
    forall i | 0 <= i < |protocols|
      ensures GoodProtocol(protocols[i]) <==> 1 <= |protocols[i]| <= 255 && OfTokenAlphabet(protocols[i])
    {
      TokensAreListed(protocols[i]);
    }
    if Subprotocols(protocols).Ok? {
      forall i, j | 0 <= i < j < |protocols|
        ensures protocols[i] != protocols[j]
      {
        assert ProtocolFault(protocols, j).None?;
        assert protocols[..j][i] == protocols[i];
      }
      forall i | 0 <= i < |protocols|
        ensures GoodProtocol(protocols[i])
      {
        assert ProtocolFault(protocols, i).None?;
      }
    }
  }

  // ----- limits -----

  /** normalizeMessageLimit */
  function MessageBytes(limit: int): Result<int, ConfigError> {
    if limit == 0 then Ok(DEFAULT_MAX_MESSAGE)
    else if limit < 1 || limit > MAX_MESSAGE then Err(MessageLimit)
    else Ok(limit)
  }

  datatype CompressionMode = Disabled | NoContextTakeover

  /** normalizeCompression */
  function Compression(enabled: bool, threshold: int): Result<(CompressionMode, int), ConfigError> {
    if !enabled then
      if threshold != 0 then Err(ThresholdWithoutCompression) else Ok((Disabled, 0))
    else
      var at := if threshold == 0 then DEFAULT_COMPRESSION_AT else threshold;
      if at < MIN_COMPRESSION_AT || at > MAX_MESSAGE then Err(ThresholdRange) else Ok((NoContextTakeover, at))
  }

  // ----- the whole configuration -----

  /** A function value, known only by its identity. */
  type Callback = nat

  datatype Config = Config(
    originPatterns: seq<string>,
    subprotocols: seq<string>,
    maxMessageBytes: int,
    maxConnections: int,
    compression: bool,
    compressionAt: int,
    closeTimeout: int,
    authenticate: Option<Callback>,
    allowInsecure: bool,
    allowAnonymous: bool,
    allowAnyOrigin: bool)

  datatype Normalized = Normalized(
    subprotocols: seq<string>,
    anyOrigin: bool,
    originPatterns: seq<string>,
    compressionMode: CompressionMode,
    compressionThreshold: int,
    maxMessage: int,
    maxConnections: int,
    closeTimeout: int,
    authenticate: Option<Callback>,
    allowInsecure: bool)

  /** validateServerAuthentication */
  function AuthenticationFault(c: Config): Option<ConfigError> {
    if c.authenticate.None? && !c.allowAnonymous then Some(AuthenticationRequired)
    else if c.authenticate.Some? && c.allowAnonymous then Some(AuthenticationExclusive)
    else if c.allowAnyOrigin && c.authenticate.None? then Some(AnyOriginNeedsAuthentication)
    else None
  }

  function OrDefault(value: int, default: int): int {
    if value == 0 then default else value
  }

  predicate ConnectionsInRange(limit: int) {
    0 <= limit <= MAX_CONNECTIONS
  }

  predicate TimeoutInRange(timeout: int) {
    timeout == 0 || MILLISECOND <= timeout <= MAX_CLOSE_TIMEOUT
  }

  /** Every check holds: what an acceptable configuration looks like. */
  ghost predicate Acceptable(lib: Library, c: Config) {
    (c.authenticate.Some? <==> !c.allowAnonymous) && (c.allowAnyOrigin ==> c.authenticate.Some?) &&
    0 <= c.maxMessageBytes <= 16_777_216 &&
    0 <= c.maxConnections <= 4096 &&
    GoodOrigins(lib, c.originPatterns, c.allowAnyOrigin) && GoodProtocols(c.subprotocols) &&
    (c.compressionAt == 0 || (c.compression && 256 <= c.compressionAt <= 16_777_216)) &&
    (c.closeTimeout == 0 || 1_000_000 <= c.closeTimeout <= 30_000_000_000)
  }

  /** The normal form of an acceptable configuration: defaults in place of zeros, origins sorted. */
  ghost function NormalForm(c: Config): Normalized {
    Normalized(
      c.subprotocols, c.allowAnyOrigin, Sort(c.originPatterns),
      if c.compression then NoContextTakeover else Disabled,
      if c.compression then OrDefault(c.compressionAt, 512) else 0,
      OrDefault(c.maxMessageBytes, 1_048_576),
      OrDefault(c.maxConnections, 256),
      OrDefault(c.closeTimeout, 5_000_000_000),
      c.authenticate, c.allowInsecure)
  }

  /** The fault that is reported: the first in the order authentication, message limit, connections,
      origins, subprotocols, compression, close timeout. */
  function ConfigFault(lib: Library, c: Config): Option<ConfigError> {
    if AuthenticationFault(c).Some? then AuthenticationFault(c)
    else if MessageBytes(c.maxMessageBytes).Err? then Some(MessageLimit)
    else if !ConnectionsInRange(c.maxConnections) then Some(ConnectionLimit)
    else if Origins(lib, c.originPatterns, c.allowAnyOrigin).Err? then
      Some(Origins(lib, c.originPatterns, c.allowAnyOrigin).error)
    else if Subprotocols(c.subprotocols).Err? then Some(Subprotocols(c.subprotocols).error)
    else if Compression(c.compression, c.compressionAt).Err? then Some(Compression(c.compression, c.compressionAt).error)
    else if !TimeoutInRange(c.closeTimeout) then Some(TimeoutRange)
    else None
  }

  lemma {:induction false} FaultlessIsAcceptable(lib: Library, c: Config)
    ensures ConfigFault(lib, c).None? <==> Acceptable(lib, c)
  {
    OriginsAccepted(lib, c.originPatterns, c.allowAnyOrigin);
    SubprotocolsAccepted(c.subprotocols);
  }

  /** Which fault is reported for what: authentication first, each rule by its own error. */
  lemma {:induction false} FaultsSayWhy(lib: Library, c: Config)
    ensures c.authenticate.None? && !c.allowAnonymous ==> ConfigFault(lib, c) == Some(AuthenticationRequired)
    ensures c.authenticate.Some? && c.allowAnonymous ==> ConfigFault(lib, c) == Some(AuthenticationExclusive)
    ensures c.authenticate.None? && c.allowAnonymous && c.allowAnyOrigin ==>
              ConfigFault(lib, c) == Some(AnyOriginNeedsAuthentication)
    ensures MessageBytes(c.maxMessageBytes) == Err(MessageLimit) <==> !(0 <= c.maxMessageBytes <= 16_777_216)
    ensures Compression(c.compression, c.compressionAt) == Err(ThresholdWithoutCompression) <==>
              !c.compression && c.compressionAt != 0
    ensures Compression(c.compression, c.compressionAt) == Err(ThresholdRange) <==>
              c.compression && c.compressionAt != 0 && !(256 <= c.compressionAt <= 16_777_216)
  {
  }

  lemma {:induction false} NormalParts(lib: Library, c: Config)
    requires ConfigFault(lib, c).None?
    ensures NormalForm(c) ==
              Normalized(Subprotocols(c.subprotocols).value, c.allowAnyOrigin,
                         Origins(lib, c.originPatterns, c.allowAnyOrigin).value,
                         Compression(c.compression, c.compressionAt).value.0,
                         Compression(c.compression, c.compressionAt).value.1,
                         MessageBytes(c.maxMessageBytes).value,
                         OrDefault(c.maxConnections, DEFAULT_MAX_CONNECTIONS),
                         OrDefault(c.closeTimeout, DEFAULT_CLOSE_TIMEOUT),
                         c.authenticate, c.allowInsecure)
  {
  }

  /** normalizeServerConfig: checks one after the other, overwriting zeros by defaults. It accepts exactly
      the acceptable configurations and returns their normal form, or else the first fault. */
  method NormalizeServerConfig(lib: Library, config: Config) returns (r: Result<Normalized, ConfigError>)
    ensures r.Ok? <==> Acceptable(lib, config)
    ensures r.Ok? ==> r.value == NormalForm(config)
    ensures r.Err? ==> ConfigFault(lib, config) == Some(r.error)
  {
    FaultlessIsAcceptable(lib, config);
    var c := config;
    var fault := AuthenticationFault(c);
    if fault.Some? {
      return Err(fault.value);
    }
    var maximum := MessageBytes(c.maxMessageBytes);
    if maximum.Err? {
      return Err(maximum.error);
    }
    if c.maxConnections == 0 {
      c := c.(maxConnections := DEFAULT_MAX_CONNECTIONS);
    }
    if c.maxConnections < 1 || c.maxConnections > MAX_CONNECTIONS {
      return Err(ConnectionLimit);
    }
    var origins := NormalizeOrigins(lib, c.originPatterns, c.allowAnyOrigin);
    if origins.Err? {
      return Err(origins.error);
    }
    var subprotocols := NormalizeSubprotocols(c.subprotocols);
    if subprotocols.Err? {
      return Err(subprotocols.error);
    }
    var compression := Compression(c.compression, c.compressionAt);
    if compression.Err? {
      return Err(compression.error);
    }
    if c.closeTimeout == 0 {
      c := c.(closeTimeout := DEFAULT_CLOSE_TIMEOUT);
    }
    if c.closeTimeout < MILLISECOND || c.closeTimeout > MAX_CLOSE_TIMEOUT {
      return Err(TimeoutRange);
    }
    NormalParts(lib, config);
    return Ok(Normalized(
                subprotocols.value, c.allowAnyOrigin, origins.value, compression.value.0, compression.value.1,
                maximum.value, c.maxConnections, c.closeTimeout, c.authenticate, c.allowInsecure));
  }

  /** A configuration that asks for exactly what a normal form says. */
  function Rebuild(n: Normalized): Config {
    Config(n.originPatterns, n.subprotocols, n.maxMessage, n.maxConnections, n.compressionMode.NoContextTakeover?,
           n.compressionThreshold, n.closeTimeout, n.authenticate, n.allowInsecure, n.authenticate.None?, n.anyOrigin)
  }

  /** Normalisation is idempotent, and every limit of a normal form is in range. */
  lemma {:induction false} NormalFormIsStable(lib: Library, c: Config)
    requires Acceptable(lib, c)
    ensures Acceptable(lib, Rebuild(NormalForm(c)))
    ensures NormalForm(Rebuild(NormalForm(c))) == NormalForm(c)
    ensures var n := NormalForm(c);
      1 <= n.maxMessage <= 16_777_216 && 1 <= n.maxConnections <= 4096 &&
      1_000_000 <= n.closeTimeout <= 30_000_000_000 &&
      (if n.compressionMode.Disabled? then n.compressionThreshold == 0
       else 256 <= n.compressionThreshold <= 16_777_216) &&
      StrictlyIncreasing(n.originPatterns) && (n.anyOrigin ==> n.originPatterns == [] && n.authenticate.Some?)
  {
    var sorted := Sort(c.originPatterns);
    SortedIsUnique(Sort(sorted), sorted);
    DistinctForgetsOrder(c.originPatterns, sorted);
    SameMembers(c.originPatterns, sorted);
  }

  /** Two configurations have the same normal form if they differ only in the order of origins and in
      spelling out defaults. */
  lemma {:induction false} NormalFormForgetsSpelling(lib: Library, c: Config, d: Config)
    requires Acceptable(lib, c) && multiset(c.originPatterns) == multiset(d.originPatterns)
    requires d == Rebuild(NormalForm(c)).(originPatterns := d.originPatterns)
    ensures Acceptable(lib, d) && NormalForm(d) == NormalForm(c)
  {
    NormalFormIsStable(lib, c);
    SortForgetsOrder(c.originPatterns, d.originPatterns);
    DistinctForgetsOrder(c.originPatterns, d.originPatterns);
    SameMembers(c.originPatterns, d.originPatterns);
    assert |c.originPatterns| == |Sort(c.originPatterns)| == |d.originPatterns|;
  }
}
