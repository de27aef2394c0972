/** The command dispatcher, `_gdbstub_process_packet`: a completed packet is
    classified by its first byte, and for `q` by a fixed, ordered list of
    query prefixes, into a command; each command has a fixed reply (or none)
    and may invoke one of the target's optional callbacks. */
module Dispatcher {
  import opened Wrappers
  import opened Bytes
  import opened Encoder

  /** A `uint32_t` breakpoint address. */
  type Word = n: int | 0 <= n < 0x1_0000_0000

  /** The callbacks of `gdbstub_config`, each present or absent. The register
      callback is represented by the C string it writes into the buffer, which
      the stub then sends as the reply; it must fit the outgoing packet. */
  datatype Config = Config(
    start: bool,
    stop: bool,
    step: bool,
    setBreakpoint: bool,
    clearBreakpoint: bool,
    getMemory: bool,
    registers: Option<Payload>)
  {
    /** The callback behind `e` is configured. */
    predicate Provides(e: Event) {
      match e
      case Start => start
      case Stop => stop
      case StepOnce => step
      case SetBreakpoint(_) => setBreakpoint
      case ClearBreakpoint(_) => clearBreakpoint
      case ReadMemory(_, _) => getMemory
      case ReadRegisters => registers.Some?
    }
  }

  /** An invocation of one of the target's callbacks. */
  datatype Event =
    | Start
    | Stop
    | StepOnce
    | SetBreakpoint(address: Word)
    | ClearBreakpoint(address: Word)
    | ReadMemory(address: Word, length: nat)
    | ReadRegisters

  /** The general queries the stub answers, in the order it tests them. */
  datatype Query =
    | Supported          // qSupported
    | CurrentThread      // qC
    | Attached           // qAttached
    | TraceStatus        // qTStatus
    | FirstTracepoint    // qTfP
    | FirstTraceVariable // qTfV
    | NextTracepoint     // qTsP
    | FirstThreadInfo    // qfThreadInfo

  /** What a packet asks for. */
  datatype Command =
    | Continue       // c
    | Detach         // D
    | ReadAll        // g
    | SetThread      // H
    | ReadOne        // p
    | Ask(q: Query)  // q with a recognised query
    | StepInto       // s
    | MultiLetter    // v
    | ClearBreak     // z
    | SetBreak       // Z
    | StopReason     // ?
    | Unknown        // anything else, including an empty packet

  /** What handling a packet does: the reply payload to send (if any), the
      callbacks invoked (before the reply), whether the session is closed
      afterwards, and whether the "unknown gdb command" diagnostic is printed. */
  datatype Outcome = Outcome(reply: Option<Payload>, calls: seq<Event>, closes: bool, diagnostic: bool)

  /** The leading byte of each single-letter command. */
  function Leader(cmd: Command): Byte {
    match cmd
    case Continue => Ascii('c')
    case Detach => Ascii('D')
    case ReadAll => Ascii('g')
    case SetThread => Ascii('H')
    case ReadOne => Ascii('p')
    case Ask(_) => Ascii('q')
    case StepInto => Ascii('s')
    case MultiLetter => Ascii('v')
    case ClearBreak => Ascii('z')
    case SetBreak => Ascii('Z')
    case StopReason => Ascii('?')
    case Unknown => NUL
  }

  /** The literal each query is recognised by. */
  function QueryText(q: Query): seq<Byte> {
    match q
    case Supported => Str("qSupported")
    case CurrentThread => Str("qC")
    case Attached => Str("qAttached")
    case TraceStatus => Str("qTStatus")
    case FirstTracepoint => Str("qTfP")
    case FirstTraceVariable => Str("qTfV")
    case NextTracepoint => Str("qTsP")
    case FirstThreadInfo => Str("qfThreadInfo")
  }

  /** `p` is the query `q`: a prefix match on its literal, except `qC`, which
      is any `q` packet whose second byte is 'C'. */
  predicate Asks(q: Query, p: seq<Byte>) {
    match q
    case CurrentThread => |p| >= 2 && p[0] == Ascii('q') && p[1] == Ascii('C')
    case _ => StartsWith(p, QueryText(q))
  }

  /** The fixed reply to each query. */
  function QueryReply(q: Query): (r: seq<Byte>)
    ensures Encodable(r)
  {
    match q
    case Supported => Str("PacketSize=1024")
    case CurrentThread => Str("QC00")
    case Attached => Str("1")
    case TraceStatus => Str("T0")
    case FirstTracepoint => []
    case FirstTraceVariable => []
    case NextTracepoint => []
    case FirstThreadInfo => Str("lm0")
  }

  /** The order in which the `q` branch tests the queries. */
  const QUERY_ORDER: seq<Query> :=
    [Supported, CurrentThread, Attached, TraceStatus,
     FirstTracepoint, FirstTraceVariable, NextTracepoint, FirstThreadInfo]

  /** The first query of `order` that `p` asks, if any. */
  function FirstQuery(order: seq<Query>, p: seq<Byte>): (r: Option<Query>)
    ensures r.Some? ==> exists i :: 0 <= i < |order| && order[i] == r.value &&
                          Asks(order[i], p) && forall j :: 0 <= j < i ==> !Asks(order[j], p)
    ensures r.None? <==> forall i :: 0 <= i < |order| ==> !Asks(order[i], p)
    decreases |order|
  {
    if |order| == 0 then None
    else if Asks(order[0], p) then Some(order[0])
    else
      var r := FirstQuery(order[1..], p);
      if r.Some? then
        ghost var i :| 0 <= i < |order[1..]| && order[1..][i] == r.value
          && Asks(order[1..][i], p) && forall j :: 0 <= j < i ==> !Asks(order[1..][j], p);
        assert order[i + 1] == r.value && forall j :: 0 < j < i + 1 ==> !Asks(order[j], p);
        r
      else
        assert forall i :: 1 <= i < |order| ==> order[i] == order[1..][i - 1];
        r
  }

  /** The `switch` on the first byte of the packet. The C string the stub
      switches on ends in NUL, so an empty packet matches no case, and a
      one-byte packet has NUL as its second byte. */
  function Classify(p: seq<Byte>): Command {
    if |p| == 0 then Unknown
    else
      var c := p[0];
      if c == Ascii('c') then Continue
      else if c == Ascii('D') then Detach
      else if c == Ascii('g') then ReadAll
      else if c == Ascii('H') then SetThread
      else if c == Ascii('p') then ReadOne
      else if c == Ascii('q') then
        match FirstQuery(QUERY_ORDER, p)
        case Some(q) => Ask(q)
        case None => Unknown
      else if c == Ascii('s') then StepInto
      else if c == Ascii('v') then MultiLetter
      else if c == Ascii('z') then ClearBreak
      else if c == Ascii('Z') then SetBreak
      else if c == Ascii('?') then StopReason
      else Unknown
  }

  /** The acknowledging reply. */
  function Okay(): (r: seq<Byte>)
    ensures Encodable(r) && |r| == 2
  {
    Str("OK")
  }

  /** The stop reply: stopped with signal 0. */
  function StoppedReply(): (r: seq<Byte>)
    ensures Encodable(r) && |r| == 3
  {
    Str("S00")
  }

  /** Handling a packet. */
  function Dispatch(cfg: Config, p: seq<Byte>): (o: Outcome)
    ensures o.closes <==> Classify(p) == Detach
    ensures |o.calls| <= 1
    ensures forall e :: e in o.calls ==> cfg.Provides(e)
    ensures forall e :: e in o.calls ==> !e.SetBreakpoint? && !e.ClearBreakpoint? && !e.ReadMemory?
  {
    match Classify(p)
    case Continue => Outcome(None, if cfg.start then [Start] else [], false, false)
    case Detach => Outcome(Some(Okay()), [], true, false)
    case ReadAll =>
      (match cfg.registers
       case Some(text) => Outcome(Some(text), [ReadRegisters], false, false)
       case None => Outcome(None, [], false, false))
    case SetThread => Outcome(Some(Okay()), [], false, false)
    case ReadOne => Outcome(Some([]), [], false, false)
    case Ask(q) => Outcome(Some(QueryReply(q)), [], false, false)
    case StepInto => Outcome(None, if cfg.step then [StepOnce] else [], false, false)
    case MultiLetter => Outcome(Some([]), [], false, false)
    // The breakpoint address is scanned but never passed on: the reply is
    // "OK" and control falls through to the diagnostic.
    case ClearBreak => Outcome(Some(Okay()), [], false, true)
    case SetBreak => Outcome(Some(Okay()), [], false, true)
    case StopReason => Outcome(Some(StoppedReply()), if cfg.stop then [Stop] else [], false, false)
    case Unknown => Outcome(None, [], false, true)
  }

  /** A prefix fixes the bytes it covers. */
  lemma StartsWithAt(p: seq<Byte>, prefix: seq<Byte>, i: nat)
    requires StartsWith(p, prefix) && i < |prefix|
    ensures p[i] == prefix[i]
  {
    assert p[..|prefix|][i] == p[i];
  }

  /** The bytes a query is told apart by: the leading 'q', the second byte,
      and for the longer literals the third and fourth. */
  lemma AsksBytes(q: Query, p: seq<Byte>)
    requires Asks(q, p)
    ensures |p| >= 2 && p[0] == Ascii('q') && p[1] == QueryText(q)[1]
    ensures |QueryText(q)| >= 4 ==> |p| >= 4 && p[2] == QueryText(q)[2] && p[3] == QueryText(q)[3]
  {
    if q != CurrentThread {
      StartsWithAt(p, QueryText(q), 0);
      StartsWithAt(p, QueryText(q), 1);
      StartsWithAt(p, QueryText(q), 2);
      StartsWithAt(p, QueryText(q), 3);
    }
  }

  /** No packet asks two of the queries: the literals differ within their
      common length, and no other literal has 'C' as its second byte. So the
      order in which the `q` branch tests them decides nothing. */
  lemma QueriesExclusive(q1: Query, q2: Query, p: seq<Byte>)
    requires Asks(q1, p) && Asks(q2, p)
    ensures q1 == q2
  {
    AsksBytes(q1, p);
    AsksBytes(q2, p);
  }

  /** A `q` packet is classified by the first query it asks. */
  lemma ClassifyQuery(p: seq<Byte>)
    requires |p| > 0 && p[0] == Ascii('q')
    ensures FirstQuery(QUERY_ORDER, p).Some? ==> Classify(p) == Ask(FirstQuery(QUERY_ORDER, p).value)
    ensures FirstQuery(QUERY_ORDER, p).None? ==> Classify(p) == Unknown
  {
    var c := p[0];
    assert c != Ascii('c') && c != Ascii('D') && c != Ascii('g') && c != Ascii('H') && c != Ascii('p');
  }

  /** Only a `q` packet is classified as a query. */
  lemma ClassifyAskIsQ(p: seq<Byte>)
    requires Classify(p).Ask?
    ensures |p| > 0 && p[0] == Ascii('q') && FirstQuery(QUERY_ORDER, p) == Some(Classify(p).q)
  {
  }

  /** A packet is classified as the query `q` exactly when it asks `q`. */
  lemma ClassifyAsk(q: Query, p: seq<Byte>)
    ensures Classify(p) == Ask(q) <==> Asks(q, p)
  {
    if Asks(q, p) {
      AsksBytes(q, p);
      assert QUERY_ORDER[QueryIndex(q)] == q;
      var r := FirstQuery(QUERY_ORDER, p);
      QueriesExclusive(q, r.value, p);
      ClassifyQuery(p);
    }
    if Classify(p) == Ask(q) {
      ClassifyAskIsQ(p);
    }
  }

  /** The position of each query in the order the dispatcher tries them. */
  function QueryIndex(q: Query): (i: nat)
    ensures i < |QUERY_ORDER| && QUERY_ORDER[i] == q
  {
    match q
    case Supported => 0
    case CurrentThread => 1
    case Attached => 2
    case TraceStatus => 3
    case FirstTracepoint => 4
    case FirstTraceVariable => 5
    case NextTracepoint => 6
    case FirstThreadInfo => 7
  }

  /** Every command but a query is decided by the first byte alone. */
  lemma ClassifyByLeader(cmd: Command, p: seq<Byte>)
    requires !cmd.Ask? && cmd != Unknown
    ensures Classify(p) == cmd <==> |p| > 0 && p[0] == Leader(cmd)
  {
  }

  /** A packet is unknown exactly when it is empty, or its first byte is none
      of the command letters, or it is a `q` packet that asks no known query. */
  lemma ClassifyUnknown(p: seq<Byte>)
    ensures Classify(p) == Unknown <==>
      (forall cmd: Command :: !cmd.Ask? && cmd != Unknown ==> !(|p| > 0 && p[0] == Leader(cmd))) &&
      (forall q: Query :: !Asks(q, p))
  {
    if Classify(p) == Unknown {
      forall q: Query ensures !Asks(q, p) {
        ClassifyAsk(q, p);
      }
    } else if Classify(p).Ask? {
      ClassifyAsk(Classify(p).q, p);
    } else {
      assert !Classify(p).Ask?;
      ClassifyByLeader(Classify(p), p);
    }
  }

  /** Every recognised query gets its fixed reply and nothing else. */
  lemma DispatchQuery(cfg: Config, q: Query, p: seq<Byte>)
    requires Asks(q, p)
    ensures Dispatch(cfg, p) == Outcome(Some(QueryReply(q)), [], false, false)
  {
    ClassifyAsk(q, p);
  }

  /** `z` and `Z` reply "OK" whatever callbacks are configured, invoke none,
      and still print the unknown-command diagnostic. */
  lemma BreakpointsIgnored(cfg: Config, p: seq<Byte>)
    requires |p| > 0 && (p[0] == Ascii('z') || p[0] == Ascii('Z'))
    ensures Dispatch(cfg, p) == Outcome(Some(Okay()), [], false, true)
  {
  }

  /** No reply is sent exactly for `c`, `s`, `g` without a register callback,
      and unknown packets. */
  lemma DispatchSilent(cfg: Config, p: seq<Byte>)
    ensures Dispatch(cfg, p).reply.None? <==>
      Classify(p) in {Continue, StepInto, Unknown} || (Classify(p) == ReadAll && cfg.registers.None?)
  {
  }

  /** Which callback runs, in both directions: each one is invoked exactly when
      its command arrives and the callback is configured. */
  lemma DispatchCalls(cfg: Config, p: seq<Byte>)
    ensures Start in Dispatch(cfg, p).calls <==> Classify(p) == Continue && cfg.start
    ensures Stop in Dispatch(cfg, p).calls <==> Classify(p) == StopReason && cfg.stop
    ensures StepOnce in Dispatch(cfg, p).calls <==> Classify(p) == StepInto && cfg.step
    ensures ReadRegisters in Dispatch(cfg, p).calls <==> Classify(p) == ReadAll && cfg.registers.Some?
  {
  }

  /** The fixed replies of the single-letter commands. */
  lemma LetterReplies(cfg: Config, p: seq<Byte>)
    requires |p| > 0
    ensures p[0] == Ascii('H') ==> Dispatch(cfg, p) == Outcome(Some(Str("OK")), [], false, false)
    ensures p[0] == Ascii('p') ==> Dispatch(cfg, p) == Outcome(Some([]), [], false, false)
    ensures p[0] == Ascii('v') ==> Dispatch(cfg, p) == Outcome(Some([]), [], false, false)
    ensures p[0] == Ascii('D') ==> Dispatch(cfg, p) == Outcome(Some(Str("OK")), [], true, false)
    ensures p[0] == Ascii('?') ==> Dispatch(cfg, p).reply == Some(Str("S00")) && !Dispatch(cfg, p).diagnostic
    ensures p[0] == Ascii('c') || p[0] == Ascii('s') ==> Dispatch(cfg, p).reply == None && !Dispatch(cfg, p).diagnostic
    ensures p[0] == Ascii('g') ==> Dispatch(cfg, p).reply == cfg.registers && !Dispatch(cfg, p).diagnostic
  {
  }

  /** Apart from `c`, `s`, `?` and `g`, handling a packet does not depend on the
      configuration at all. */
  lemma ConfigIrrelevant(cfg1: Config, cfg2: Config, p: seq<Byte>)
    requires Classify(p) !in {Continue, StepInto, StopReason, ReadAll}
    ensures Dispatch(cfg1, p) == Dispatch(cfg2, p)
  {
  }

  /** A payload that still starts with a '$' (one that was framed inside
      an earlier, unterminated packet) is not recognised. */
  lemma StrayDollar(p: seq<Byte>)
    requires |p| > 0 && p[0] == DOLLAR
    ensures Classify(p) == Unknown
  {
  }

  /** An unknown packet gets no reply and invokes no callback. */
  lemma UnknownIgnored(cfg: Config, p: seq<Byte>)
    requires Classify(p) == Unknown
    ensures Dispatch(cfg, p) == Outcome(None, [], false, true)
  {
  }

  /** The capability handshake: `qSupported` and a `qC`-shaped query. */
  lemma HandshakeExample(cfg: Config, p1: seq<Byte>, p2: seq<Byte>)
    requires p1 == Str("qSupported") && p2 == Str("qCRC")
    ensures Dispatch(cfg, p1).reply == Some(Str("PacketSize=1024"))
    ensures Dispatch(cfg, p2).reply == Some(Str("QC00"))
  {
    assert StartsWith(p1, QueryText(Supported));
    DispatchQuery(cfg, Supported, p1);
    assert |p2| >= 2 && p2[0] == Ascii('q') && p2[1] == Ascii('C');
    DispatchQuery(cfg, CurrentThread, p2);
  }

  /** An unrecognised packet is answered by silence. */
  lemma UnknownExample(cfg: Config, p: seq<Byte>)
    requires p == Str("Q_bogus")
    ensures Dispatch(cfg, p) == Outcome(None, [], false, true)
  {
    assert |p| > 0 && p[0] == 0x51;
    assert Classify(p) == Unknown;
    UnknownIgnored(cfg, p);
  }

  /** A bare `q` asks no query: it is unknown too. */
  lemma BareQueryExample(cfg: Config, p: seq<Byte>)
    requires p == Str("q")
    ensures Dispatch(cfg, p) == Outcome(None, [], false, true)
  {
    assert |p| == 1 && p[0] == Ascii('q');
    forall q: Query ensures !Asks(q, p) {
      assert |QueryText(q)| >= 2;
    }
    ClassifyQuery(p);
    UnknownIgnored(cfg, p);
  }
}
