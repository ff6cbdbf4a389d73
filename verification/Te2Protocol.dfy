/** The te2 upload as two machines and two channels. The channels are queues that lose any
    line and insert noise; a damaged line is a lost one and a noise line in its place. The
    host may repeat its line at any moment, so every pattern of timeouts is covered. */
module Te2Protocol {
  import opened Crc
  import opened Te2Wire
  import opened Te2Loader
  import opened Wrappers

  datatype Upload = Upload(records: seq<Record>, entry: nat)
  {
    /** What the host makes sure of before it sends. */
    predicate WellFormed() {
      && (forall i :: 0 <= i < |records| ==> Fits(records[i]))
      && entry < LOADER_BASE
    }

    function Count(): nat { |records| }
  }

  predicate Fits(r: Record) { |r.data| <= MAXDATA && r.address + |r.data| <= LOADER_BASE }

  /** Memory with the records written one after the other. */
  function Overlay(memory: seq<byte>, records: seq<Record>): (m: seq<byte>)
    requires |memory| >= LOADER_BASE && forall i :: 0 <= i < |records| ==> Fits(records[i])
    ensures |m| == |memory|
  {
    if records == [] then memory
    else
      var last := records[|records| - 1];
      assert Fits(last);
      Store(Overlay(memory, records[..|records| - 1]), last.address, last.data)
  }

  /** The CRC over the first `k` records. */
  function StreamCrc(u: Upload, k: nat): register
    requires k <= u.Count()
  {
    if k == 0 then INITIAL
    else CrcBytes(StreamCrc(u, k - 1),
                  RecordBytes((k - 1) % 65536, u.records[k - 1].address, u.records[k - 1].data))
  }

  /** The line the host sends in phase `k`: one record each, then E, then G. */
  function HostLine(u: Upload, k: nat): string
    requires k <= u.Count() + 1
  {
    var n := u.Count();
    if k < n then DataLine(k % 65536, u.records[k].address, u.records[k].data)
    else if k == n then EndLine(n % 65536, StreamCrc(u, n))
    else GoLine(u.entry)
  }

  /** The line that ends phase `k`. */
  function Awaited(u: Upload, k: nat): string
    requires k <= u.Count() + 1
  {
    var n := u.Count();
    if k < n then Ack('A', k % 65536)
    else if k == n then Ack('F', n % 65536)
    else "J" + Hex(u.entry, 6)
  }

  /** `stored` and `jump` record what the loader did to memory and where it went. */
  datatype State = State(phase: nat, toTarget: seq<string>, toHost: seq<string>,
                         loader: LoaderState, stored: seq<Record>, jump: Option<int>)

  datatype Event =
    | HostSends
    | HostReceives
    | HostHears(noise: string)
    | TargetReceives
    | TargetHears(line: Option<string>)
    | LostToTarget(i: nat)
    | LostToHost(i: nat)

  function Start(memory: seq<byte>): State {
    State(0, [], [], LoaderState(0, INITIAL, false, memory), [], None)
  }

  /** Noise is whatever the loader refuses and whatever the host is not waiting for. */
  predicate Enabled(u: Upload, s: State, e: Event)
    requires s.loader.Valid()
  {
    match e
    case HostSends => s.phase <= u.Count() + 1
    case HostReceives => s.toHost != []
    case HostHears(noise) => s.phase <= u.Count() + 1 ==> noise != Awaited(u, s.phase)
    case TargetReceives => s.toTarget != [] && s.jump.None?
    case TargetHears(line) => s.jump.None? && Refusal(LoaderStep(s.loader, line).reply)
    case LostToTarget(i) => i < |s.toTarget|
    case LostToHost(i) => i < |s.toHost|
  }

  /** wait_line: other lines are passed over. */
  function HostReads(u: Upload, s: State, line: string): State {
    if s.phase <= u.Count() + 1 && line == Awaited(u, s.phase) then s.(phase := s.phase + 1) else s
  }

  function TargetReads(s: State, line: Option<string>): (s': State)
    requires s.loader.Valid()
    ensures s'.loader.Valid()
  {
    var r := LoaderStep(s.loader, line);
    s.(loader := r.state, toHost := s.toHost + [r.reply], jump := r.jump,
       stored := s.stored + if r.stored.Some? then [r.stored.value] else [])
  }

  function Drop<T>(q: seq<T>, i: nat): seq<T>
    requires i < |q|
  {
    q[..i] + q[i + 1..]
  }

  function Step(u: Upload, s: State, e: Event): (s': State)
    requires s.loader.Valid() && Enabled(u, s, e)
    ensures s'.loader.Valid()
  {
    match e
    case HostSends => s.(toTarget := s.toTarget + [HostLine(u, s.phase)])
    case HostReceives => HostReads(u, s.(toHost := s.toHost[1..]), s.toHost[0])
    case HostHears(noise) => HostReads(u, s, noise)
    case TargetReceives => TargetReads(s.(toTarget := s.toTarget[1..]), Some(s.toTarget[0]))
    case TargetHears(line) => TargetReads(s, line)
    case LostToTarget(i) => s.(toTarget := Drop(s.toTarget, i))
    case LostToHost(i) => s.(toHost := Drop(s.toHost, i))
  }

  /** One event makes `s'` of `s`. */
  ghost predicate Goes(u: Upload, s: State, e: Event, s': State) {
    s.loader.Valid() && Enabled(u, s, e) && s' == Step(u, s, e)
  }

  /** The states a fresh loader and a host with this image go through. */
  ghost predicate Run(u: Upload, memory: seq<byte>, es: seq<Event>, trace: seq<State>) {
    && |trace| == |es| + 1 && trace[0] == Start(memory)
    && forall i :: 0 <= i < |es| ==> Goes(u, trace[i], es[i], trace[i + 1])
  }
}
