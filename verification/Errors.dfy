/** Go error trees, the two searches the package runs on them, redaction and outcome classification. */
module Errors {
  import opened Basics

  /** An error value: leaves, a single wrapping (fmt.Errorf with %w) and errors.Join.
      `Native` is the library's CloseError, `Peer` this package's PeerCloseError. */
  datatype Err =
    | Native(code: int, reason: string)
    | Peer(status: int)
    | NetClosed
    | Opaque(text: string)
    | Wrap(operation: string, inner: Err)
    | Join(errs: seq<Err>)

  datatype Outcome = Normal | Canceled | Failed

  const NORMAL_CLOSURE := 1000
  const GOING_AWAY := 1001
  const POLICY_VIOLATION := 1008
  const INTERNAL_ERROR := 1011
  const NO_STATUS_RECEIVED := 1005

  /** errors.As for the library's CloseError: the first one met in pre-order. */
  function FirstNative(e: Err): Option<int>
    decreases e, 1
  {
    match e
    case Native(code, _) => Some(code)
    case Wrap(_, inner) => FirstNative(inner)
    case Join(errs) => FirstNativeIn(errs)
    case _ => None
  }

  function FirstNativeIn(errs: seq<Err>): Option<int>
    decreases errs, 0
  {
    if errs == [] then None
    else
      var head := FirstNative(errs[0]);
      if head.Some? then head else FirstNativeIn(errs[1..])
  }

  /** errors.As for *PeerCloseError. */
  function FirstPeer(e: Err): Option<int>
    decreases e, 1
  {
    match e
    case Peer(status) => Some(status)
    case Wrap(_, inner) => FirstPeer(inner)
    case Join(errs) => FirstPeerIn(errs)
    case _ => None
  }

  function FirstPeerIn(errs: seq<Err>): Option<int>
    decreases errs, 0
  {
    if errs == [] then None
    else
      var head := FirstPeer(errs[0]);
      if head.Some? then head else FirstPeerIn(errs[1..])
  }

  /** `part` occurs in the tree: what errors.Is finds for an error compared by identity. */
  predicate Contains(e: Err, part: Err)
    decreases e
  {
    e == part ||
    match e
    case Wrap(_, inner) => Contains(inner, part)
    case Join(errs) => exists i :: 0 <= i < |errs| && Contains(errs[i], part)
    case _ => false
  }

  /** All errors of a tree, itself included, in pre-order. */
  ghost function Parts(e: Err): seq<Err>
    decreases e, 1
  {
    match e
    case Wrap(_, inner) => [e] + Parts(inner)
    case Join(errs) => [e] + PartsIn(errs)
    case _ => [e]
  }

  ghost function PartsIn(errs: seq<Err>): seq<Err>
    decreases errs, 0
  {
    if errs == [] then [] else Parts(errs[0]) + PartsIn(errs[1..])
  }

  /** errors.Is looks through the whole tree. */
  lemma {:induction false} ContainsReadsParts(e: Err, part: Err)
    ensures Contains(e, part) <==> part in Parts(e)
    decreases e, 1
  {
    match e
    case Wrap(_, inner) => ContainsReadsParts(inner, part);
    case Join(errs) => ContainsReadsPartsIn(errs, part);
    case _ =>
  }

  lemma {:induction false} ContainsReadsPartsIn(errs: seq<Err>, part: Err)
    ensures (exists i :: 0 <= i < |errs| && Contains(errs[i], part)) <==> part in PartsIn(errs)
    decreases errs, 0
  {
    if errs != [] {
      ContainsReadsParts(errs[0], part);
      ContainsReadsPartsIn(errs[1..], part);
      assert forall i :: 1 <= i < |errs| ==> errs[i] == errs[1..][i - 1];
      if i :| 0 <= i < |errs| && Contains(errs[i], part) {
        assert i > 0 ==> Contains(errs[1..][i - 1], part);
      }
      if i :| 0 <= i < |errs| - 1 && Contains(errs[1..][i], part) {
        assert Contains(errs[i + 1], part);
      }
    }
  }

  /** No library CloseError, and so no close reason, anywhere in the tree. */
  predicate NoNative(e: Err)
    decreases e
  {
    match e
    case Native(_, _) => false
    case Wrap(_, inner) => NoNative(inner)
    case Join(errs) => forall i :: 0 <= i < |errs| ==> NoNative(errs[i])
    case _ => true
  }

  /** Codes that may travel in a close frame (section 7.4.1 of RFC 6455). */
  predicate WireCode(code: int) {
    code != 1004 && code != 1005 && code != 1006 && code != 1015 &&
    (NORMAL_CLOSURE <= code <= 1014 || 3000 <= code <= 4999)
  }

  /** What the library returns: its CloseErrors carry a code read from the wire, or 1005 when the
      frame had none, and it knows nothing of PeerCloseError. */
  predicate FromLibrary(e: Err)
    decreases e
  {
    match e
    case Native(code, _) => WireCode(code) || code == NO_STATUS_RECEIVED
    case Peer(_) => false
    case Wrap(_, inner) => FromLibrary(inner)
    case Join(errs) => forall i :: 0 <= i < |errs| ==> FromLibrary(errs[i])
    case _ => true
  }

  /** The library's CloseStatus: -1 when no CloseError is found. */
  function CloseStatus(e: Err): int {
    match FirstNative(e)
    case Some(code) => code
    case None => -1
  }

  /** sanitizeConnectionError; `cause` is context.Cause of the caller's context. */
  function Sanitize(operation: string, cause: Option<Err>, e: Err): Err {
    if cause.Some? then Wrap(operation, cause.value)
    else if CloseStatus(e) != -1 then Peer(CloseStatus(e))
    else Wrap(operation, e)
  }

  predicate OrdinaryClose(status: Option<int>) {
    status == Some(NORMAL_CLOSURE) || status == Some(GOING_AWAY)
  }

  /** serverOutcome: what the session is reported as, and the status to close with. */
  function ServerOutcome(cause: Option<Err>, handlerErr: Option<Err>): (Outcome, int) {
    if cause.Some? then (Canceled, GOING_AWAY)
    else if handlerErr.None? then (Normal, NORMAL_CLOSURE)
    else if OrdinaryClose(FirstPeer(handlerErr.value)) then (Normal, NORMAL_CLOSURE)
    else if CloseStatus(handlerErr.value) == NORMAL_CLOSURE || CloseStatus(handlerErr.value) == GOING_AWAY
    then (Normal, NORMAL_CLOSURE)
    else (Failed, INTERNAL_ERROR)
  }

  // ----- searches against the flattened tree -----

  /** A close error met while walking a tree. */
  datatype Mark = NativeMark(code: int) | PeerMark(code: int)

  /** All close errors of a tree in pre-order. */
  ghost function Marks(e: Err): seq<Mark>
    decreases e, 1
  {
    match e
    case Native(code, _) => [NativeMark(code)]
    case Peer(status) => [PeerMark(status)]
    case Wrap(_, inner) => Marks(inner)
    case Join(errs) => MarksIn(errs)
    case _ => []
  }

  ghost function MarksIn(errs: seq<Err>): seq<Mark>
    decreases errs, 0
  {
    if errs == [] then [] else Marks(errs[0]) + MarksIn(errs[1..])
  }

  ghost function FirstNativeMark(marks: seq<Mark>): Option<int> {
    if marks == [] then None
    else if marks[0].NativeMark? then Some(marks[0].code)
    else FirstNativeMark(marks[1..])
  }

  ghost function FirstPeerMark(marks: seq<Mark>): Option<int> {
    if marks == [] then None
    else if marks[0].PeerMark? then Some(marks[0].code)
    else FirstPeerMark(marks[1..])
  }

  lemma {:induction false} FirstMarkAppend(a: seq<Mark>, b: seq<Mark>)
    ensures FirstNativeMark(a + b) == (if FirstNativeMark(a).Some? then FirstNativeMark(a) else FirstNativeMark(b))
    ensures FirstPeerMark(a + b) == (if FirstPeerMark(a).Some? then FirstPeerMark(a) else FirstPeerMark(b))
  {
    if a == [] {
      assert a + b == b;
    } else {
      assert (a + b)[1..] == a[1..] + b;
      FirstMarkAppend(a[1..], b);
    }
  }

  /** The two errors.As searches are "first of its kind in pre-order". */
  lemma {:induction false} SearchesReadMarks(e: Err)
    ensures FirstNative(e) == FirstNativeMark(Marks(e))
    ensures FirstPeer(e) == FirstPeerMark(Marks(e))
    decreases e, 1
  {
    match e
    case Wrap(_, inner) => SearchesReadMarks(inner);
    case Join(errs) => SearchesReadMarksIn(errs);
    case _ =>
  }

  lemma {:induction false} SearchesReadMarksIn(errs: seq<Err>)
    ensures FirstNativeIn(errs) == FirstNativeMark(MarksIn(errs))
    ensures FirstPeerIn(errs) == FirstPeerMark(MarksIn(errs))
    decreases errs, 0
  {
    if errs != [] {
      SearchesReadMarks(errs[0]);
      SearchesReadMarksIn(errs[1..]);
      FirstMarkAppend(Marks(errs[0]), MarksIn(errs[1..]));
    }
  }

  /** A library tree holds only native marks, none of them with code -1. */
  lemma {:induction false} LibraryMarks(e: Err)
    requires FromLibrary(e)
    ensures forall i :: 0 <= i < |Marks(e)| ==> Marks(e)[i].NativeMark? && Marks(e)[i].code != -1
    ensures NoNative(e) <==> Marks(e) == []
    decreases e, 1
  {
    match e
    case Wrap(_, inner) => LibraryMarks(inner);
    case Join(errs) => LibraryMarksIn(errs);
    case _ =>
  }

  lemma {:induction false} LibraryMarksIn(errs: seq<Err>)
    requires forall i :: 0 <= i < |errs| ==> FromLibrary(errs[i])
    ensures forall i :: 0 <= i < |MarksIn(errs)| ==> MarksIn(errs)[i].NativeMark? && MarksIn(errs)[i].code != -1
    ensures (forall i :: 0 <= i < |errs| ==> NoNative(errs[i])) <==> MarksIn(errs) == []
    decreases errs, 0
  {
    if errs != [] {
      LibraryMarks(errs[0]);
      LibraryMarksIn(errs[1..]);
      assert forall i :: 1 <= i < |errs| ==> errs[i] == errs[1..][i - 1];
      assert errs[0] == errs[0];
    }
  }

  lemma {:induction false} NoNativeMarks(e: Err)
    requires NoNative(e)
    ensures forall i :: 0 <= i < |Marks(e)| ==> Marks(e)[i].PeerMark?
    decreases e, 1
  {
    match e
    case Wrap(_, inner) => NoNativeMarks(inner);
    case Join(errs) => NoNativeMarksIn(errs);
    case _ =>
  }

  lemma {:induction false} NoNativeMarksIn(errs: seq<Err>)
    requires forall i :: 0 <= i < |errs| ==> NoNative(errs[i])
    ensures forall i :: 0 <= i < |MarksIn(errs)| ==> MarksIn(errs)[i].PeerMark?
    decreases errs, 0
  {
    if errs != [] {
      NoNativeMarks(errs[0]);
      NoNativeMarksIn(errs[1..]);
    }
  }

  lemma {:induction false} AllOfOneKind(marks: seq<Mark>)
    ensures (forall i :: 0 <= i < |marks| ==> marks[i].PeerMark?) ==> FirstNativeMark(marks).None?
    ensures (forall i :: 0 <= i < |marks| ==> marks[i].NativeMark?) ==> FirstPeerMark(marks).None?
  {
    if marks != [] { AllOfOneKind(marks[1..]); }
  }

  // ----- redaction preserves the outcome -----

  /** An error a session handler returns: results of connection operations and errors of its own,
      wrapped and joined at will. `FromConnection` holds what the library returned. */
  datatype Handled =
    | FromConnection(operation: string, native: Err)
    | Own(err: Err)
    | HandledWrap(text: string, inner: Handled)
    | HandledJoin(parts: seq<Handled>)

  /** What stands under `FromConnection` comes from the library. The handler's own errors may be anything,
      close errors of either kind included. */
  ghost predicate Realistic(h: Handled)
    decreases h
  {
    match h
    case FromConnection(_, native) => FromLibrary(native)
    case Own(_) => true
    case HandledWrap(_, inner) => Realistic(inner)
    case HandledJoin(parts) => forall i :: 0 <= i < |parts| ==> Realistic(parts[i])
  }

  /** The tree as it would be if connection operations passed library errors through. */
  ghost function Raw(h: Handled): Err
    decreases h
  {
    match h
    case FromConnection(_, native) => native
    case Own(err) => err
    case HandledWrap(text, inner) => Wrap(text, Raw(inner))
    case HandledJoin(parts) => Join(seq(|parts|, i requires 0 <= i < |parts| => Raw(parts[i])))
  }

  /** The tree as it is: every library error went through Sanitize under a live context. */
  ghost function Redacted(h: Handled): Err
    decreases h
  {
    match h
    case FromConnection(operation, native) => Sanitize(operation, None, native)
    case Own(err) => err
    case HandledWrap(text, inner) => Wrap(text, Redacted(inner))
    case HandledJoin(parts) => Join(seq(|parts|, i requires 0 <= i < |parts| => Redacted(parts[i])))
  }

  /** Where a close error in a handler's tree comes from: a connection operation, or the handler's own
      making, as a PeerCloseError or as the library's CloseError. */
  datatype Origin = Connection | OwnPeer | OwnNative

  datatype Close = Close(origin: Origin, code: int)

  /** The close errors of a handler's tree in pre-order, before any redaction. An operation's error counts
      by its first one, the only one that either search can reach. */
  ghost function Closes(h: Handled): seq<Close>
    decreases h, 1
  {
    match h
    case FromConnection(_, native) =>
      if FirstNative(native).Some? then [Close(Connection, FirstNative(native).value)] else []
    case Own(err) => OwnCloses(Marks(err))
    case HandledWrap(_, inner) => Closes(inner)
    case HandledJoin(parts) => ClosesIn(parts)
  }

  ghost function ClosesIn(parts: seq<Handled>): seq<Close>
    decreases parts, 0
  {
    if parts == [] then [] else Closes(parts[0]) + ClosesIn(parts[1..])
  }

  ghost function OwnCloses(marks: seq<Mark>): seq<Close> {
    seq(|marks|, i requires 0 <= i < |marks| => Close(if marks[i].PeerMark? then OwnPeer else OwnNative, marks[i].code))
  }

  /** The code of the first close error from one of the given origins. */
  ghost function Search(closes: seq<Close>, origins: set<Origin>): Option<int> {
    if closes == [] then None
    else if closes[0].origin in origins then Some(closes[0].code)
    else Search(closes[1..], origins)
  }

  lemma {:induction false} SearchAppend(a: seq<Close>, b: seq<Close>, origins: set<Origin>)
    ensures Search(a + b, origins) == if Search(a, origins).Some? then Search(a, origins) else Search(b, origins)
  {
    if a == [] {
      assert a + b == b;
    } else {
      assert (a + b)[1..] == a[1..] + b;
      SearchAppend(a[1..], b, origins);
    }
  }

  /** In a handler's own error nothing is from the connection. */
  lemma {:induction false} SearchOwn(marks: seq<Mark>, more: set<Origin>)
    requires more <= {Connection}
    ensures Search(OwnCloses(marks), more + {OwnPeer}) == FirstPeerMark(marks)
    ensures Search(OwnCloses(marks), more + {OwnNative}) == FirstNativeMark(marks)
  {
    if marks != [] {
      SearchOwn(marks[1..], more);
      assert OwnCloses(marks)[1..] == OwnCloses(marks[1..]);
    }
  }

  const RAW_PEER: set<Origin> := {OwnPeer}
  const RAW_NATIVE: set<Origin> := {Connection} + {OwnNative}
  const REDACTED_PEER: set<Origin> := {Connection} + {OwnPeer}
  const REDACTED_NATIVE: set<Origin> := {OwnNative}

  /** What each search meets, without and with redaction: redaction moves the connection's close errors
      from the search for CloseErrors to the search for PeerCloseErrors. */
  ghost predicate Reads(closes: seq<Close>, rawPeer: Option<int>, rawNative: Option<int>,
                        redactedPeer: Option<int>, redactedNative: Option<int>)
  {
    rawPeer == Search(closes, RAW_PEER) && rawNative == Search(closes, RAW_NATIVE) &&
    redactedPeer == Search(closes, REDACTED_PEER) && redactedNative == Search(closes, REDACTED_NATIVE)
  }

  lemma {:induction false} OperationReads(operation: string, native: Err)
    requires FromLibrary(native)
    ensures var redacted := Sanitize(operation, None, native);
      Reads(Closes(FromConnection(operation, native)), FirstPeer(native), FirstNative(native),
            FirstPeer(redacted), FirstNative(redacted))
  {
    SearchesReadMarks(native);
    LibraryMarks(native);
    AllOfOneKind(Marks(native));
    if FirstNative(native).Some? {
      var closes := [Close(Connection, FirstNative(native).value)];
      assert closes[1..] == [];
    }
  }

  lemma {:induction false} OwnReads(err: Err)
    ensures Reads(OwnCloses(Marks(err)), FirstPeer(err), FirstNative(err), FirstPeer(err), FirstNative(err))
  {
    SearchesReadMarks(err);
    SearchOwn(Marks(err), {});
    SearchOwn(Marks(err), {Connection});
    assert {} + {OwnPeer} == RAW_PEER && {} + {OwnNative} == REDACTED_NATIVE;
  }

  /** On every tree of wrappings and joins, the four searches are "first of these origins in pre-order". */
  lemma {:induction false} SearchesReadCloses(h: Handled)
    requires Realistic(h)
    ensures Reads(Closes(h), FirstPeer(Raw(h)), FirstNative(Raw(h)), FirstPeer(Redacted(h)), FirstNative(Redacted(h)))
    decreases h, 1
  {
    match h
    case FromConnection(operation, native) => OperationReads(operation, native);
    case Own(err) => OwnReads(err);
    case HandledWrap(_, inner) => SearchesReadCloses(inner);
    case HandledJoin(parts) =>
      var raws := seq(|parts|, i requires 0 <= i < |parts| => Raw(parts[i]));
      var reds := seq(|parts|, i requires 0 <= i < |parts| => Redacted(parts[i]));
      assert Raw(h) == Join(raws) && Redacted(h) == Join(reds);
      SearchesReadClosesIn(parts, raws, reds);
  }

  lemma {:induction false} SearchesReadClosesIn(parts: seq<Handled>, raws: seq<Err>, reds: seq<Err>)
    requires |raws| == |reds| == |parts|
    requires forall i :: 0 <= i < |parts| ==> Realistic(parts[i]) && raws[i] == Raw(parts[i]) && reds[i] == Redacted(parts[i])
    ensures Reads(ClosesIn(parts), FirstPeerIn(raws), FirstNativeIn(raws), FirstPeerIn(reds), FirstNativeIn(reds))
    decreases parts, 0
  {
    if parts != [] {
      SearchesReadCloses(parts[0]);
      SearchesReadClosesIn(parts[1..], raws[1..], reds[1..]);
      var head, rest := Closes(parts[0]), ClosesIn(parts[1..]);
      SearchAppend(head, rest, RAW_PEER);
      SearchAppend(head, rest, RAW_NATIVE);
      SearchAppend(head, rest, REDACTED_PEER);
      SearchAppend(head, rest, REDACTED_NATIVE);
    }
  }

  /** The position of the first close error of an origin; the length if there is none. */
  ghost function At(closes: seq<Close>, origin: Origin): nat {
    if closes == [] || closes[0].origin == origin then 0 else 1 + At(closes[1..], origin)
  }

  ghost predicate Before(closes: seq<Close>, a: Origin, b: Origin) {
    At(closes, a) < At(closes, b)
  }

  ghost predicate Ordinary(closes: seq<Close>, origin: Origin) {
    OrdinaryClose(Search(closes, {origin}))
  }

  /** A search over two origins finds the one that comes first. */
  lemma {:induction false} SearchTwo(closes: seq<Close>, a: Origin, b: Origin)
    requires a != b
    ensures Search(closes, {a} + {b}) == Search(closes, {if Before(closes, a, b) then a else b})
    ensures !Before(closes, a, b) && !Before(closes, b, a) ==> Search(closes, {a}) == Search(closes, {b}) == None
  {
    if closes != [] { SearchTwo(closes[1..], a, b); }
  }

  /** An ordinary close of one origin stands behind one of another origin that is not ordinary. */
  ghost predicate Hides(closes: seq<Close>, front: Origin, behind: Origin) {
    Before(closes, front, behind) && !Ordinary(closes, front) && Ordinary(closes, behind)
  }

  /** Redaction makes the search for a PeerCloseError stop at a close error that is not ordinary: at the
      connection's in front of the handler's own PeerCloseError, or the other way round, where the search
      for a CloseError would have found the connection's. No ordinary CloseError of the handler helps. */
  ghost predicate Worsens(closes: seq<Close>) {
    !Ordinary(closes, OwnNative) &&
    (Hides(closes, Connection, OwnPeer) ||
     (Hides(closes, OwnPeer, Connection) && Before(closes, Connection, OwnNative)))
  }

  /** The mirror image: without redaction the search for a CloseError stops too early. */
  ghost predicate Improves(closes: seq<Close>) {
    !Ordinary(closes, OwnPeer) &&
    (Hides(closes, Connection, OwnNative) ||
     (Hides(closes, OwnNative, Connection) && Before(closes, Connection, OwnPeer)))
  }

  lemma {:induction false} VerdictsDiffer(closes: seq<Close>)
    ensures var raw := OrdinaryClose(Search(closes, RAW_PEER)) || OrdinaryClose(Search(closes, RAW_NATIVE));
      var redacted := OrdinaryClose(Search(closes, REDACTED_PEER)) || OrdinaryClose(Search(closes, REDACTED_NATIVE));
      (raw && !redacted <==> Worsens(closes)) && (redacted && !raw <==> Improves(closes))
  {
    SearchTwo(closes, Connection, OwnPeer);
    SearchTwo(closes, Connection, OwnNative);
  }

  /** The tree holds no close error of the given origin. */
  ghost predicate Lacks(h: Handled, origin: Origin) {
    forall c :: c in Closes(h) ==> c.origin != origin
  }

  lemma {:induction false} SearchFindsOrigin(closes: seq<Close>, origin: Origin)
    ensures Search(closes, {origin}).None? <==> forall c :: c in closes ==> c.origin != origin
    ensures Search(closes, {origin}).None? <==> At(closes, origin) == |closes|
    ensures At(closes, origin) <= |closes|
  {
    if closes != [] {
      SearchFindsOrigin(closes[1..], origin);
      assert forall c :: c in closes <==> c == closes[0] || c in closes[1..];
    }
  }

  /** Redaction changes neither the reported outcome nor the close status, except exactly in two families
      of trees, told apart by where their close errors come from and in which order they stand; in one it
      turns Normal into Failed, in the other Failed into Normal. A library CloseError is left in the tree
      exactly if the handler put one there. */
  lemma {:induction false} RedactionPreservesOutcome(h: Handled, cause: Option<Err>)
    requires Realistic(h)
    ensures var raw, redacted := ServerOutcome(cause, Some(Raw(h))), ServerOutcome(cause, Some(Redacted(h)));
      (raw == redacted <==> cause.Some? || (!Worsens(Closes(h)) && !Improves(Closes(h)))) &&
      (raw.0 == Normal && redacted.0 == Failed <==> cause.None? && Worsens(Closes(h))) &&
      (raw.0 == Failed && redacted.0 == Normal <==> cause.None? && Improves(Closes(h)))
    ensures NoNative(Redacted(h)) <==> Lacks(h, OwnNative)
  {
    SearchesReadCloses(h);
    VerdictsDiffer(Closes(h));
    SearchFindsOrigin(Closes(h), OwnNative);
    NoneFoundExactlyIfNoneThere(Redacted(h));
  }

  /** If the handler makes no library CloseError of its own, redaction never makes an outcome better, and
      makes it worse exactly if, of the connection's close errors and the handler's PeerCloseErrors, the
      first is not ordinary and hides an ordinary one of the other kind. */
  lemma {:induction false} RedactionOnlyWorsens(h: Handled, cause: Option<Err>)
    requires Realistic(h) && Lacks(h, OwnNative)
    ensures (ServerOutcome(cause, Some(Redacted(h))) == ServerOutcome(cause, Some(Raw(h)))) <==>
            (cause.Some? ||
             (!Hides(Closes(h), Connection, OwnPeer) && !Hides(Closes(h), OwnPeer, Connection)))
    ensures ServerOutcome(cause, Some(Redacted(h))).0 == Normal ==> ServerOutcome(cause, Some(Raw(h))).0 == Normal
    ensures NoNative(Redacted(h))
  {
    RedactionPreservesOutcome(h, cause);
    SearchFindsOrigin(Closes(h), OwnNative);
    SearchFindsOrigin(Closes(h), Connection);
  }

  /** If the handler makes no close errors of its own, of either kind, redaction never changes the
      verdict. */
  lemma {:induction false} RedactionInvisibleToOutcome(h: Handled, cause: Option<Err>)
    requires Realistic(h) && Lacks(h, OwnNative) && Lacks(h, OwnPeer)
    ensures ServerOutcome(cause, Some(Redacted(h))) == ServerOutcome(cause, Some(Raw(h)))
  {
    RedactionOnlyWorsens(h, cause);
    SearchFindsOrigin(Closes(h), OwnPeer);
    SearchFindsOrigin(Closes(h), Connection);
  }

  /** What the two searches find in a join of two errors. */
  lemma {:induction false} JoinOfTwo(a: Err, b: Err)
    ensures FirstPeer(Join([a, b])) == if FirstPeer(a).Some? then FirstPeer(a) else FirstPeer(b)
    ensures FirstNative(Join([a, b])) == if FirstNative(a).Some? then FirstNative(a) else FirstNative(b)
  {
    assert [a, b][1..] == [b] && [b][1..] == [];
    assert FirstPeerIn([b]) == FirstPeer(b) && FirstNativeIn([b]) == FirstNative(b);
  }

  /** A peer's policy close, joined with an error of the handler's own. */
  ghost function PolicyCloseAnd(own: Err): Handled {
    HandledJoin([FromConnection("read WebSocket message", Native(POLICY_VIOLATION, "")), Own(own)])
  }

  lemma {:induction false} PolicyCloseTrees(own: Err)
    ensures Realistic(PolicyCloseAnd(own))
    ensures Raw(PolicyCloseAnd(own)) == Join([Native(POLICY_VIOLATION, ""), own])
    ensures Redacted(PolicyCloseAnd(own)) == Join([Peer(POLICY_VIOLATION), own])
  {
    var h := PolicyCloseAnd(own);
    assert Raw(h).errs == [Native(POLICY_VIOLATION, ""), own];
    assert Redacted(h).errs == [Peer(POLICY_VIOLATION), own];
  }

  /** A handler that joins a peer's policy close with a PeerCloseError of its own is reported Failed,
      although the unredacted tree would have been reported Normal. */
  lemma {:induction false} WorseningExample()
    ensures var h := PolicyCloseAnd(Peer(NORMAL_CLOSURE));
      Realistic(h) &&
      ServerOutcome(None, Some(Raw(h))) == (Normal, NORMAL_CLOSURE) &&
      ServerOutcome(None, Some(Redacted(h))) == (Failed, INTERNAL_ERROR)
  {
    var own := Peer(NORMAL_CLOSURE);
    PolicyCloseTrees(own);
    JoinOfTwo(Native(POLICY_VIOLATION, ""), own);
    JoinOfTwo(Peer(POLICY_VIOLATION), own);
  }

  /** A handler that joins it with the library's CloseError of another connection, one it reads without
      this package, is reported Normal, although the unredacted tree would have been reported Failed. */
  lemma {:induction false} ImprovingExample()
    ensures var h := PolicyCloseAnd(Native(NORMAL_CLOSURE, ""));
      Realistic(h) &&
      ServerOutcome(None, Some(Raw(h))) == (Failed, INTERNAL_ERROR) &&
      ServerOutcome(None, Some(Redacted(h))) == (Normal, NORMAL_CLOSURE)
  {
    var own := Native(NORMAL_CLOSURE, "");
    PolicyCloseTrees(own);
    JoinOfTwo(Native(POLICY_VIOLATION, ""), own);
    JoinOfTwo(Peer(POLICY_VIOLATION), own);
  }

  // ----- redaction does not leak reasons -----

  /** Equal trees, except for the reasons inside the library's CloseErrors. */
  ghost predicate SameUpToReasons(a: Err, b: Err)
    decreases a
  {
    match (a, b)
    case (Native(c, _), Native(d, _)) => c == d
    case (Wrap(t, i), Wrap(u, j)) => t == u && SameUpToReasons(i, j)
    case (Join(xs), Join(ys)) => |xs| == |ys| && forall i :: 0 <= i < |xs| ==> SameUpToReasons(xs[i], ys[i])
    case _ => a == b
  }

  lemma {:induction false} ReasonsDoNotGuideSearch(a: Err, b: Err)
    requires SameUpToReasons(a, b)
    ensures FirstNative(a) == FirstNative(b)
    ensures FirstNative(a).None? ==> a == b
    decreases a, 1
  {
    match (a, b)
    case (Wrap(_, i), Wrap(_, j)) => ReasonsDoNotGuideSearch(i, j);
    case (Join(xs), Join(ys)) => ReasonsDoNotGuideSearchIn(xs, ys);
    case _ =>
  }

  lemma {:induction false} ReasonsDoNotGuideSearchIn(xs: seq<Err>, ys: seq<Err>)
    requires |xs| == |ys| && forall i :: 0 <= i < |xs| ==> SameUpToReasons(xs[i], ys[i])
    ensures FirstNativeIn(xs) == FirstNativeIn(ys)
    ensures FirstNativeIn(xs).None? ==> xs == ys
    decreases xs, 0
  {
    if xs != [] {
      ReasonsDoNotGuideSearch(xs[0], ys[0]);
      ReasonsDoNotGuideSearchIn(xs[1..], ys[1..]);
      if FirstNativeIn(xs).None? {
        assert xs == [xs[0]] + xs[1..] && ys == [ys[0]] + ys[1..];
      }
    }
  }

  /** Non-interference: what leaves Sanitize does not depend on the peer's close reasons. */
  lemma {:induction false} SanitizeHidesReasons(operation: string, cause: Option<Err>, a: Err, b: Err)
    requires FromLibrary(a) && SameUpToReasons(a, b)
    ensures Sanitize(operation, cause, a) == Sanitize(operation, cause, b)
  {
    ReasonsDoNotGuideSearch(a, b);
    LibraryMarks(a);
    SearchesReadMarks(a);
  }

  /** Sanitize lets a library CloseError through exactly in two cases: the caller's own cause has one,
      or, under a live context, the first one found carries the code -1 that the library uses for
      "none". No code read from the wire is -1. What a caller may rely on is kept: its own cause, the
      status of a close, any other error. */
  lemma {:induction false} SanitizeRemovesNatives(operation: string, cause: Option<Err>, e: Err)
    ensures NoNative(Sanitize(operation, cause, e)) <==>
              if cause.Some? then NoNative(cause.value) else FirstNative(e) != Some(-1)
    ensures FromLibrary(e) ==> FirstNative(e) != Some(-1)
    ensures cause.Some? ==> Contains(Sanitize(operation, cause, e), cause.value)
    ensures cause.None? && CloseStatus(e) != -1 ==> FirstPeer(Sanitize(operation, cause, e)) == FirstNative(e)
    ensures cause.None? && CloseStatus(e) == -1 ==> Contains(Sanitize(operation, cause, e), e)
  {
    SearchesReadMarks(e);
    NoneFoundExactlyIfNoneThere(e);
    if FromLibrary(e) { LibraryMarks(e); }
  }

  lemma {:induction false} NoneFoundExactlyIfNoneThere(e: Err)
    ensures FirstNative(e).None? <==> NoNative(e)
  {
    if FirstNative(e).None? { NoneFoundNoneThere(e); }
    if NoNative(e) {
      NoNativeMarks(e);
      SearchesReadMarks(e);
      AllOfOneKind(Marks(e));
    }
  }

  lemma {:induction false} NoneFoundNoneThere(e: Err)
    requires FirstNative(e).None?
    ensures NoNative(e)
    decreases e, 1
  {
    match e
    case Wrap(_, inner) => NoneFoundNoneThere(inner);
    case Join(errs) => NoneFoundNoneThereIn(errs);
    case _ =>
  }

  lemma {:induction false} NoneFoundNoneThereIn(errs: seq<Err>)
    requires FirstNativeIn(errs).None?
    ensures forall i :: 0 <= i < |errs| ==> NoNative(errs[i])
    decreases errs, 0
  {
    if errs != [] {
      NoneFoundNoneThere(errs[0]);
      NoneFoundNoneThereIn(errs[1..]);
      assert forall i :: 1 <= i < |errs| ==> errs[i] == errs[1..][i - 1];
    }
  }
}
