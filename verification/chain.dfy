/** A client, any number of forwarding coroutines, and the client's reader: the path of a byte
    through the proxy's upstream direction, the echo session and the proxy's downstream
    direction. Every forwarder reads some bytes, writes all of them, and on end of file
    passes the half-close on (section 3.6.1 of RFC 9293). A forwarder that fails takes its
    sockets with it, so that what is behind it sees an end of stream too. */
module ForwardingChain {

  type Bytes = seq<char>

  const BUFFER := 64 * 1024

  /** One direction of a connection: bytes under way, and whether the sender has shut down. */
  datatype Link = Link(bytes: Bytes, shut: bool)

  datatype Stage =
    | Receiving             // suspended in async_read_some
    | Writing(rest: Bytes)  // suspended in async_write, `rest` not yet written
    | Closed                // ended by EOF, the half-close was passed on
    | Broken(lost: Bytes)   // ended by an error, `lost` was read and will never be written

  /** The client's read loop ends with any error, end of file being one of them. */
  datatype Reading = Listening | SawEof | SawError

  /** A forwarder and everything behind it, up to the client's read loop. `total` is the
      number of bytes the forwarder reports. */
  datatype Chain =
    | Reader(link: Link, received: Bytes, state: Reading)
    | Forwarder(link: Link, stage: Stage, total: nat, next: Chain)

  datatype Client = Client(written: Bytes, chain: Chain)

  datatype Event =
    | Take(n: nat)   // a read completes with n bytes
    | Give(n: nat)   // n bytes of a write get through
    | AtEof          // a read completes with end of file
    | Fail           // an operation completes with an error, or is cancelled

  datatype Step = ClientWrites(bytes: Bytes) | ClientShutsDown | At(node: nat, event: Event)

  predicate IsReading(c: Chain) {
    if c.Reader? then c.state.Listening? else c.stage.Receiving?
  }

  predicate NodeEnabled(c: Chain, e: Event) {
    match e
    case Take(n) => 0 < n <= |c.link.bytes| && n <= BUFFER && IsReading(c)
    case Give(n) => c.Forwarder? && c.stage.Writing? && 0 < n <= |c.stage.rest|
    case AtEof => c.link == Link([], true) && IsReading(c)
    case Fail => IsReading(c) || (c.Forwarder? && c.stage.Writing?)
  }

  function WithLink(c: Chain, link: Link): Chain {
    c.(link := link)
  }

  function Shut(c: Chain): Chain {
    WithLink(c, c.link.(shut := true))
  }

  function Held(stage: Stage): Bytes {
    match stage
    case Writing(rest) => rest
    case Broken(lost) => lost
    case _ => []
  }

  function NodeStep(c: Chain, e: Event): Chain
    requires NodeEnabled(c, e)
  {
    match e
    case Take(n) =>
      var link := c.link.(bytes := c.link.bytes[n..]);
      if c.Reader? then
        c.(link := link, received := c.received + c.link.bytes[..n])
      else
        c.(link := link, stage := Writing(c.link.bytes[..n]), total := c.total + n)
    case Give(n) =>
      var sent, rest := c.stage.rest[..n], c.stage.rest[n..];
      c.(stage := if rest == [] then Receiving else Writing(rest),
         next := WithLink(c.next, c.next.link.(bytes := c.next.link.bytes + sent)))
    case AtEof =>
      if c.Reader? then c.(state := SawEof)
      else c.(stage := Closed, next := Shut(c.next))
    case Fail =>
      // The error leaves the coroutine, and destroying its frame closes both sockets.
      if c.Reader? then c.(state := SawError)
      else c.(stage := Broken(Held(c.stage)), next := Shut(c.next))
  }

  predicate ChainEnabled(c: Chain, node: nat, e: Event) {
    if node == 0 then NodeEnabled(c, e) else c.Forwarder? && ChainEnabled(c.next, node - 1, e)
  }

  function ChainStep(c: Chain, node: nat, e: Event): Chain
    requires ChainEnabled(c, node, e)
  {
    if node == 0 then NodeStep(c, e) else c.(next := ChainStep(c.next, node - 1, e))
  }

  predicate Enabled(s: Client, step: Step) {
    match step
    case ClientWrites(_) => !s.chain.link.shut
    case ClientShutsDown => true
    case At(node, e) => ChainEnabled(s.chain, node, e)
  }

  function Next(s: Client, step: Step): Client
    requires Enabled(s, step)
  {
    match step
    case ClientWrites(bytes) =>
      Client(s.written + bytes, WithLink(s.chain, s.chain.link.(bytes := s.chain.link.bytes + bytes)))
    case ClientShutsDown => s.(chain := Shut(s.chain))
    case At(node, e) => s.(chain := ChainStep(s.chain, node, e))
  }

  ghost predicate CanRun(s: Client, steps: seq<Step>)
    decreases |steps|
  {
    steps != [] ==> Enabled(s, steps[0]) && CanRun(Next(s, steps[0]), steps[1..])
  }

  ghost function Run(s: Client, steps: seq<Step>): Client
    requires CanRun(s, steps)
    decreases |steps|
  {
    if steps == [] then s else Run(Next(s, steps[0]), steps[1..])
  }

  /** `hops` forwarders in a row, nothing written yet. */
  function Fresh(hops: nat): Chain {
    if hops == 0 then Reader(Link([], false), [], Listening)
    else Forwarder(Link([], false), Receiving, 0, Fresh(hops - 1))
  }

  // Conservation

  /** Everything that entered the chain, oldest first: what the client received, then what is
      in flight or was lost on the way, from the far end to the near end. */
  function Content(c: Chain): Bytes {
    match c
    case Reader(link, received, _) => received + link.bytes
    case Forwarder(link, stage, _, next) => Content(next) + Held(stage) + link.bytes
  }

  /** What each node's state says about its neighbours: a forwarder counts what it has read,
      and the link behind it is shut exactly when it has ended. */
  ghost predicate Sound(c: Chain) {
    match c
    case Reader(link, _, state) => state.SawEof? ==> link == Link([], true)
    case Forwarder(link, stage, total, next) =>
      && total == |Content(next)| + |Held(stage)|
      && (stage.Writing? ==> stage.rest != [])
      && (stage.Closed? ==> link == Link([], true))
      && (next.link.shut <==> stage.Closed? || stage.Broken?)
      && Sound(next)
  }

  lemma AppendToLink(c: Chain, bytes: Bytes)
    requires Sound(c) && !c.link.shut
    ensures Sound(WithLink(c, c.link.(bytes := c.link.bytes + bytes)))
    ensures Content(WithLink(c, c.link.(bytes := c.link.bytes + bytes))) == Content(c) + bytes
  {
    var front := if c.Reader? then c.received else Content(c.next) + Held(c.stage);
    assert front + (c.link.bytes + bytes) == front + c.link.bytes + bytes;
  }

  lemma ShutKeepsContent(c: Chain)
    requires Sound(c)
    ensures Sound(Shut(c)) && Content(Shut(c)) == Content(c)
  {
  }

  /** No event at a node creates, drops, duplicates or reorders a byte. */
  lemma NodeConserves(c: Chain, e: Event)
    requires Sound(c) && NodeEnabled(c, e)
    ensures Sound(NodeStep(c, e)) && Content(NodeStep(c, e)) == Content(c)
    ensures NodeStep(c, e).link.shut == c.link.shut
  {
    match e
    case Take(n) =>
      var front := if c.Reader? then c.received else Content(c.next);
      assert c.link.bytes == c.link.bytes[..n] + c.link.bytes[n..];
      assert front + c.link.bytes == front + c.link.bytes[..n] + c.link.bytes[n..];
    case Give(n) =>
      AppendToLink(c.next, c.stage.rest[..n]);
      assert c.stage.rest == c.stage.rest[..n] + c.stage.rest[n..];
      assert Content(c.next) + c.stage.rest == Content(c.next) + c.stage.rest[..n] + c.stage.rest[n..];
    case AtEof =>
      if c.Forwarder? { ShutKeepsContent(c.next); }
    case Fail =>
      if c.Forwarder? { ShutKeepsContent(c.next); }
  }

  lemma {:induction false} ChainConserves(c: Chain, node: nat, e: Event)
    requires Sound(c) && ChainEnabled(c, node, e)
    ensures Sound(ChainStep(c, node, e)) && Content(ChainStep(c, node, e)) == Content(c)
    ensures ChainStep(c, node, e).link.shut == c.link.shut
    decreases node
  {
    if node == 0 {
      NodeConserves(c, e);
    } else {
      ChainConserves(c.next, node - 1, e);
    }
  }

  ghost predicate Inv(s: Client) {
    Sound(s.chain) && s.written == Content(s.chain)
  }

  lemma StepConserves(s: Client, step: Step)
    requires Inv(s) && Enabled(s, step)
    ensures Inv(Next(s, step))
  {
    match step
    case ClientWrites(bytes) => AppendToLink(s.chain, bytes);
    case ClientShutsDown => ShutKeepsContent(s.chain);
    case At(node, e) => ChainConserves(s.chain, node, e);
  }

  lemma {:induction false} RunConserves(s: Client, steps: seq<Step>)
    requires Inv(s) && CanRun(s, steps)
    ensures Inv(Run(s, steps))
    decreases |steps|
  {
    if steps != [] {
      StepConserves(s, steps[0]);
      RunConserves(Next(s, steps[0]), steps[1..]);
    }
  }

  lemma {:induction false} FreshIsSound(hops: nat)
    ensures Sound(Fresh(hops)) && Content(Fresh(hops)) == [] && !Fresh(hops).link.shut
  {
    if hops > 0 { FreshIsSound(hops - 1); }
  }

  // End of stream

  function Received(c: Chain): Bytes {
    match c
    case Reader(_, received, _) => received
    case Forwarder(_, _, _, next) => Received(next)
  }

  /** How the client's read loop stands. */
  function ReaderState(c: Chain): Reading {
    match c
    case Reader(_, _, state) => state
    case Forwarder(_, _, _, next) => ReaderState(next)
  }

  /** Every forwarder has counted `n` bytes. */
  predicate AllTotals(c: Chain, n: nat) {
    match c
    case Reader(_, _, _) => true
    case Forwarder(_, _, total, next) => total == n && AllTotals(next, n)
  }

  predicate AllClosed(c: Chain) {
    match c
    case Reader(_, _, _) => true
    case Forwarder(_, stage, _, next) => stage.Closed? && AllClosed(next)
  }

  /** No forwarder was left by an error. */
  predicate Unbroken(c: Chain) {
    match c
    case Reader(_, _, state) => !state.SawError?
    case Forwarder(_, stage, _, next) => !stage.Broken? && Unbroken(next)
  }

  /** Some node was left by an error with bytes in it or on the way to it. `upstream` says if
      bytes are on the way to the first node already. */
  predicate Stranded(c: Chain, upstream: bool) {
    match c
    case Reader(link, _, state) => state.SawError? && (upstream || link.bytes != [])
    case Forwarder(link, stage, _, next) =>
      var waiting := upstream || link.bytes != [] || Held(stage) != [];
      (stage.Broken? && waiting) || Stranded(next, waiting)
  }

  /** What the client has received is always a prefix of what it wrote. */
  lemma {:induction false} ReceivedIsPrefix(c: Chain)
    ensures Received(c) <= Content(c)
  {
    if c.Forwarder? {
      ReceivedIsPrefix(c.next);
    }
  }

  lemma {:induction false} EqualContentsEqualTotals(c: Chain)
    requires Sound(c) && Received(c) == Content(c)
    ensures AllTotals(c, |Received(c)|)
  {
    if c.Forwarder? {
      ReceivedIsPrefix(c.next);
      EqualContentsEqualTotals(c.next);
    }
  }

  /** Once the read loop has ended, bytes are missing exactly when an error stranded them. */
  lemma {:induction false} MissingMeansStranded(c: Chain, upstream: bool)
    requires Sound(c) && !ReaderState(c).Listening?
    ensures Stranded(c, upstream) <==> Received(c) != Content(c) || (upstream && !Unbroken(c))
    ensures Unbroken(c) ==> c.link == Link([], true) && AllClosed(c) && Received(c) == Content(c)
  {
    if c.Forwarder? {
      var waiting := upstream || c.link.bytes != [] || Held(c.stage) != [];
      MissingMeansStranded(c.next, waiting);
      ReceivedIsPrefix(c.next);
    }
  }

  ghost predicate NoFailure(steps: seq<Step>) {
    forall i :: 0 <= i < |steps| && steps[i].At? ==> !steps[i].event.Fail?
  }

  lemma {:induction false} ChainStepBreaks(c: Chain, node: nat, e: Event)
    requires ChainEnabled(c, node, e)
    ensures Unbroken(ChainStep(c, node, e)) <==> Unbroken(c) && !e.Fail?
    decreases node
  {
    if node > 0 { ChainStepBreaks(c.next, node - 1, e); }
  }

  /** An error is never repaired, and nothing but a failing operation is one. */
  lemma {:induction false} UnbrokenExactlyWhen(s: Client, steps: seq<Step>)
    requires CanRun(s, steps)
    ensures Unbroken(Run(s, steps).chain) <==> Unbroken(s.chain) && NoFailure(steps)
    decreases |steps|
  {
    if steps != [] {
      if steps[0].At? { ChainStepBreaks(s.chain, steps[0].node, steps[0].event); }
      UnbrokenExactlyWhen(Next(s, steps[0]), steps[1..]);
      assert forall i :: 0 <= i < |steps[1..]| ==> steps[1..][i] == steps[i + 1];
      assert steps == [steps[0]] + steps[1..];
    }
  }

  lemma {:induction false} FreshIsUnbroken(hops: nat)
    ensures Unbroken(Fresh(hops))
  {
    if hops > 0 { FreshIsUnbroken(hops - 1); }
  }

  /** Through any number of forwarders and in every interleaving, including partial writes and
      failures anywhere: what the client wrote is what it received followed by all bytes in
      flight, in order. Once its read loop has ended, it has received everything it wrote, and
      all totals agree, if and only if no node was left by an error with bytes in it or on the
      way to it. If no operation failed, the client has shut down, every forwarder was closed by
      end of file, and nothing is missing. */
  lemma EndToEnd(hops: nat, steps: seq<Step>)
    requires CanRun(Client([], Fresh(hops)), steps)
    ensures var s := Run(Client([], Fresh(hops)), steps);
            && s.written == Content(s.chain)
            && Received(s.chain) <= s.written
            && (!ReaderState(s.chain).Listening? ==>
                  && (Received(s.chain) == s.written && AllTotals(s.chain, |s.written|) <==> !Stranded(s.chain, false))
                  && (NoFailure(steps) ==>
                        s.chain.link == Link([], true) && AllClosed(s.chain) && Received(s.chain) == s.written))
  {
    FreshIsSound(hops);
    RunConserves(Client([], Fresh(hops)), steps);
    var s := Run(Client([], Fresh(hops)), steps);
    ReceivedIsPrefix(s.chain);
    FreshIsUnbroken(hops);
    UnbrokenExactlyWhen(Client([], Fresh(hops)), steps);
    if !ReaderState(s.chain).Listening? {
      MissingMeansStranded(s.chain, false);
      if Received(s.chain) == s.written {
        EqualContentsEqualTotals(s.chain);
      }
    }
  }

  /** An end of file alone does not mean that everything came back: a forwarder fails with a
      byte on the way to it, its sockets are closed, and the client sees a proper end of file. */
  lemma EofAfterFailureExample()
    ensures var steps := [ClientWrites("a"), ClientShutsDown, At(0, Fail), At(1, AtEof)];
            && CanRun(Client([], Fresh(1)), steps)
            && var s := Run(Client([], Fresh(1)), steps);
               ReaderState(s.chain).SawEof? && Received(s.chain) == [] && s.written == "a"
  {
    var steps := [ClientWrites("a"), ClientShutsDown, At(0, Fail), At(1, AtEof)];
    var s1 := Client("a", Forwarder(Link("a", false), Receiving, 0, Reader(Link([], false), [], Listening)));
    var s2 := Client("a", Forwarder(Link("a", true), Receiving, 0, Reader(Link([], false), [], Listening)));
    var s3 := Client("a", Forwarder(Link("a", true), Broken([]), 0, Reader(Link([], true), [], Listening)));
    var s4 := Client("a", Forwarder(Link("a", true), Broken([]), 0, Reader(Link([], true), [], SawEof)));
    assert [] + "a" == "a" && Fresh(1) == Forwarder(Link([], false), Receiving, 0, Fresh(0));
    assert Next(Client([], Fresh(1)), steps[0]) == s1 && Next(s1, steps[1]) == s2;
    assert Next(s2, steps[2]) == s3 && Next(s3, steps[3]) == s4;
    var last := [At(1, AtEof)];
    assert steps[1..] == [ClientShutsDown, At(0, Fail)] + last && steps[1..][1..] == [At(0, Fail)] + last;
    assert ([At(0, Fail)] + last)[1..] == last && last[1..] == [];
    assert CanRun(s3, last) && CanRun(s2, [At(0, Fail)] + last) && CanRun(s1, steps[1..]);
    assert Run(s3, last) == s4 && Run(s2, [At(0, Fail)] + last) == s4 && Run(s1, steps[1..]) == s4;
  }

  // Each node in terms of what happens to it

  /** Node `k`: a forwarder, or the client's reader behind the last one. */
  function NodeAt(c: Chain, k: nat): Chain
    requires k <= Hops(c)
  {
    if k == 0 then c else NodeAt(c.next, k - 1)
  }

  function Hops(c: Chain): nat {
    if c.Reader? then 0 else 1 + Hops(c.next)
  }

  /** The bytes a node has read, and those it has written. */
  function BytesIn(c: Chain): nat {
    if c.Reader? then |c.received| else c.total
  }

  function BytesOut(c: Chain): nat {
    if c.Reader? then 0 else |Content(c.next)|
  }

  predicate EndedByEof(c: Chain) {
    if c.Reader? then c.state.SawEof? else c.stage.Closed?
  }

  predicate EndedByError(c: Chain) {
    if c.Reader? then c.state.SawError? else c.stage.Broken?
  }

  /** The bytes that the events of node `k` read, or write. */
  ghost function Moved(steps: seq<Step>, k: nat, reading: bool): nat {
    if steps == [] then 0
    else
      (if !steps[0].At? || steps[0].node != k then 0
       else match steps[0].event
            case Take(n) => if reading then n else 0
            case Give(n) => if reading then 0 else n
            case _ => 0)
      + Moved(steps[1..], k, reading)
  }

  ghost function ClientBytes(steps: seq<Step>): Bytes {
    if steps == [] then [] else (if steps[0].ClientWrites? then steps[0].bytes else []) + ClientBytes(steps[1..])
  }

  lemma NodeStepCounts(c: Chain, e: Event)
    requires Sound(c) && NodeEnabled(c, e)
    ensures var t := NodeStep(c, e);
            && BytesIn(t) == BytesIn(c) + (if e.Take? then e.n else 0)
            && BytesOut(t) == BytesOut(c) + (if e.Give? then e.n else 0)
            && (EndedByEof(t) <==> EndedByEof(c) || e.AtEof?)
            && (EndedByError(t) <==> EndedByError(c) || e.Fail?)
  {
    NodeConserves(c, e);
    if e.Give? {
      AppendToLink(c.next, c.stage.rest[..e.n]);
    } else if c.Forwarder? && (e.AtEof? || e.Fail?) {
      ShutKeepsContent(c.next);
    }
  }

  /** What an event at node 0 does to the node behind it: only its link changes. */
  lemma RelinkCounts(c: Chain, link: Link, k: nat)
    requires k <= Hops(c)
    ensures Hops(WithLink(c, link)) == Hops(c)
    ensures var n, m := NodeAt(c, k), NodeAt(WithLink(c, link), k);
            && BytesIn(m) == BytesIn(n) && BytesOut(m) == BytesOut(n)
            && EndedByEof(m) == EndedByEof(n) && EndedByError(m) == EndedByError(n)
  {
  }

  lemma {:induction false} ChainStepCounts(c: Chain, node: nat, e: Event, k: nat)
    requires Sound(c) && ChainEnabled(c, node, e) && k <= Hops(c)
    ensures Hops(ChainStep(c, node, e)) == Hops(c)
    ensures var n, m := NodeAt(c, k), NodeAt(ChainStep(c, node, e), k);
            && BytesIn(m) == BytesIn(n) + (if node == k && e.Take? then e.n else 0)
            && BytesOut(m) == BytesOut(n) + (if node == k && e.Give? then e.n else 0)
            && (EndedByEof(m) <==> EndedByEof(n) || (node == k && e.AtEof?))
            && (EndedByError(m) <==> EndedByError(n) || (node == k && e.Fail?))
    decreases node
  {
    if node == 0 {
      NodeStepCounts(c, e);
      if c.Forwarder? {
        var link := NodeStep(c, e).next.link;
        assert NodeStep(c, e).next == WithLink(c.next, link);
        RelinkCounts(c.next, link, if k == 0 then 0 else k - 1);
      }
    } else {
      ChainStepCounts(c.next, node - 1, e, if k == 0 then 0 else k - 1);
      ChainConserves(c.next, node - 1, e);
    }
  }

  lemma {:induction false} RunCounts(s: Client, steps: seq<Step>, k: nat)
    requires Inv(s) && CanRun(s, steps) && k <= Hops(s.chain)
    ensures var t := Run(s, steps);
            && Hops(t.chain) == Hops(s.chain)
            && BytesIn(NodeAt(t.chain, k)) == BytesIn(NodeAt(s.chain, k)) + Moved(steps, k, true)
            && BytesOut(NodeAt(t.chain, k)) == BytesOut(NodeAt(s.chain, k)) + Moved(steps, k, false)
            && (EndedByEof(NodeAt(t.chain, k)) <==> EndedByEof(NodeAt(s.chain, k)) || At(k, AtEof) in steps)
            && (EndedByError(NodeAt(t.chain, k)) <==> EndedByError(NodeAt(s.chain, k)) || At(k, Fail) in steps)
    decreases |steps|
  {
    if steps != [] {
      StepConserves(s, steps[0]);
      InCons(At(k, AtEof), steps);
      InCons(At(k, Fail), steps);
      match steps[0] {
        case At(node, e) => ChainStepCounts(s.chain, node, e, k);
        case _ => RelinkCounts(s.chain, Next(s, steps[0]).chain.link, k);
      }
      RunCounts(Next(s, steps[0]), steps[1..], k);
    }
  }

  lemma InCons(step: Step, steps: seq<Step>)
    requires steps != []
    ensures step in steps <==> step == steps[0] || step in steps[1..]
  {
    assert steps == [steps[0]] + steps[1..];
  }

  lemma {:induction false} ClientHistory(s: Client, steps: seq<Step>)
    requires Inv(s) && CanRun(s, steps)
    ensures var t := Run(s, steps);
            && t.written == s.written + ClientBytes(steps)
            && (t.chain.link.shut <==> s.chain.link.shut || ClientShutsDown in steps)
    decreases |steps|
  {
    if steps != [] {
      StepConserves(s, steps[0]);
      InCons(ClientShutsDown, steps);
      if steps[0].At? { ChainConserves(s.chain, steps[0].node, steps[0].event); }
      ClientHistory(Next(s, steps[0]), steps[1..]);
    }
  }

  lemma {:induction false} FreshNode(hops: nat, k: nat)
    requires k <= hops
    ensures Hops(Fresh(hops)) == hops
    ensures var n := NodeAt(Fresh(hops), k);
            BytesIn(n) == 0 && BytesOut(n) == 0 && !EndedByEof(n) && !EndedByError(n)
  {
    FreshIsSound(hops);
    if hops > 0 {
      FreshIsSound(hops - 1);
      FreshNode(hops - 1, if k == 0 then 0 else k - 1);
    }
  }

  /** In every run, from the events alone: each node has read and written just what its operations
      moved, and has ended by end of file or by an error if and only if one of them saw that;
      the client has written what it wrote, and its end is shut down if and only if it did so.
      With the conservation of the content this determines every byte in flight. */
  lemma NodesOfRun(hops: nat, steps: seq<Step>, k: nat)
    requires k <= hops && CanRun(Client([], Fresh(hops)), steps)
    ensures var s := Run(Client([], Fresh(hops)), steps);
            && s.written == ClientBytes(steps)
            && (s.chain.link.shut <==> ClientShutsDown in steps)
            && Hops(s.chain) == hops
            && BytesIn(NodeAt(s.chain, k)) == Moved(steps, k, true)
            && BytesOut(NodeAt(s.chain, k)) == Moved(steps, k, false)
            && (EndedByEof(NodeAt(s.chain, k)) <==> At(k, AtEof) in steps)
            && (EndedByError(NodeAt(s.chain, k)) <==> At(k, Fail) in steps)
  {
    FreshIsSound(hops);
    FreshNode(hops, k);
    RunCounts(Client([], Fresh(hops)), steps, k);
    ClientHistory(Client([], Fresh(hops)), steps);
  }

  /** No read delivers more than the buffer of 64 KiB holds. */
  lemma {:induction false} ReadsFitBuffer(s: Client, steps: seq<Step>, i: nat)
    requires CanRun(s, steps) && i < |steps| && steps[i].At? && steps[i].event.Take?
    ensures 0 < steps[i].event.n <= 65536
    decreases |steps|
  {
    if i > 0 {
      assert steps[1..][i - 1] == steps[i];
      ReadsFitBuffer(Next(s, steps[0]), steps[1..], i - 1);
    } else {
      TakeFits(s.chain, steps[0].node, steps[0].event);
    }
  }

  lemma {:induction false} TakeFits(c: Chain, node: nat, e: Event)
    requires ChainEnabled(c, node, e) && e.Take?
    ensures 0 < e.n <= 65536
    decreases node
  {
    if node > 0 { TakeFits(c.next, node - 1, e); }
  }

  // Everything arrives

  /** Neither the client nor a failure: an event of the forwarding itself. */
  predicate Forwards(step: Step) {
    step.At? && !step.event.Fail?
  }

  /** Once the client has shut down, something can be forwarded until the reader ends. */
  lemma {:induction false} CanGoOn(c: Chain) returns (node: nat, e: Event)
    requires Sound(c) && c.link.shut && ReaderState(c).Listening?
    ensures ChainEnabled(c, node, e) && !e.Fail?
  {
    node := 0;
    if c.Forwarder? && c.stage.Writing? {
      e := Give(|c.stage.rest|);
    } else if c.Forwarder? && !c.stage.Receiving? {
      var k;
      k, e := CanGoOn(c.next);
      node := k + 1;
    } else if c.link.bytes == [] {
      e := AtEof;
    } else {
      e := Take(if |c.link.bytes| < 65536 then |c.link.bytes| else 65536);
    }
  }

  /** How many events are left at most when `n` bytes were written in all: each node has to read
      and write those that it has not yet, and to see the end. */
  function Left(c: Chain, n: nat): int {
    (n - BytesIn(c)) + (if c.Forwarder? then n - BytesOut(c) else 0)
    + (if EndedByEof(c) || EndedByError(c) then 0 else 1)
    + (if c.Forwarder? then Left(c.next, n) else 0)
  }

  lemma {:induction false} LeftIsNatural(c: Chain, n: nat)
    requires Sound(c) && |Content(c)| <= n
    ensures Left(c, n) >= 0
  {
    if c.Forwarder? { LeftIsNatural(c.next, n); }
  }

  lemma RelinkLeft(c: Chain, link: Link, n: nat)
    ensures Left(WithLink(c, link), n) == Left(c, n)
  {
  }

  lemma {:induction false} ChainStepLeft(c: Chain, node: nat, e: Event, n: nat)
    requires Sound(c) && ChainEnabled(c, node, e)
    ensures Left(ChainStep(c, node, e), n) < Left(c, n)
    decreases node
  {
    if node == 0 {
      NodeStepCounts(c, e);
      if c.Forwarder? {
        assert NodeStep(c, e).next == WithLink(c.next, NodeStep(c, e).next.link);
        RelinkLeft(c.next, NodeStep(c, e).next.link, n);
      }
      assert EndedByEof(c) || EndedByError(c) ==> !e.AtEof? && !e.Fail?;
    } else {
      ChainStepLeft(c.next, node - 1, e, n);
      ChainConserves(c.next, node - 1, e);
    }
  }

  lemma {:induction false} RunLeft(s: Client, steps: seq<Step>)
    requires Inv(s) && s.chain.link.shut && CanRun(s, steps)
    requires forall i :: 0 <= i < |steps| ==> steps[i].At?
    ensures var t := Run(s, steps);
            && Inv(t) && t.chain.link.shut && t.written == s.written
            && |steps| + Left(t.chain, |s.written|) <= Left(s.chain, |s.written|)
    decreases |steps|
  {
    if steps != [] {
      StepConserves(s, steps[0]);
      ChainStepLeft(s.chain, steps[0].node, steps[0].event, |s.written|);
      ChainConserves(s.chain, steps[0].node, steps[0].event);
      assert forall i :: 0 <= i < |steps[1..]| ==> steps[1..][i] == steps[i + 1];
      RunLeft(Next(s, steps[0]), steps[1..]);
    }
  }

  /** Once the client has shut down, only finitely much can happen, and a run that cannot go on,
      except by a failure or a repeated shutdown, has reached the end of the reader. If nothing
      failed, everything has arrived then, and all totals agree. */
  lemma EverythingArrives(hops: nat, steps: seq<Step>, more: seq<Step>)
    requires CanRun(Client([], Fresh(hops)), steps) && ClientShutsDown in steps
    requires CanRun(Run(Client([], Fresh(hops)), steps), more)
    requires forall i :: 0 <= i < |more| ==> more[i].At?
    ensures var s := Run(Client([], Fresh(hops)), steps);
            var t := Run(s, more);
            && |more| <= Left(s.chain, |s.written|)
            && ((forall step :: Forwards(step) ==> !Enabled(t, step)) ==>
                  && !ReaderState(t.chain).Listening?
                  && (Unbroken(t.chain) ==> Received(t.chain) == s.written && AllTotals(t.chain, |s.written|)))
  {
    FreshIsSound(hops);
    RunConserves(Client([], Fresh(hops)), steps);
    ClientHistory(Client([], Fresh(hops)), steps);
    var s := Run(Client([], Fresh(hops)), steps);
    RunLeft(s, more);
    var t := Run(s, more);
    LeftIsNatural(t.chain, |s.written|);
    if forall step :: Forwards(step) ==> !Enabled(t, step) {
      if ReaderState(t.chain).Listening? {
        var node, e := CanGoOn(t.chain);
        assert Forwards(At(node, e)) && Enabled(t, At(node, e));
      }
      MissingMeansStranded(t.chain, false);
      if Unbroken(t.chain) { EqualContentsEqualTotals(t.chain); }
    }
  }

  // Half-close

  /** Node `k` and what is behind it. */
  function Node(c: Chain, k: nat): (n: Chain)
    requires HasForwarder(c, k)
    ensures n.Forwarder?
  {
    if k == 0 then c else Node(c.next, k - 1)
  }

  predicate HasForwarder(c: Chain, k: nat) {
    c.Forwarder? && (k == 0 || HasForwarder(c.next, k - 1))
  }

  /** Some node before the one `k` steps down was left by an error with bytes in it or on the
      way to it. */
  predicate StrandedBefore(c: Chain, k: nat, upstream: bool)
    requires HasForwarder(c, k)
  {
    var waiting := upstream || c.link.bytes != [] || Held(c.stage) != [];
    k > 0 && ((c.stage.Broken? && waiting) || StrandedBefore(c.next, k - 1, waiting))
  }

  predicate BrokenBefore(c: Chain, k: nat)
    requires HasForwarder(c, k)
  {
    k > 0 && (c.stage.Broken? || BrokenBefore(c.next, k - 1))
  }

  /** What a forwarder that was closed by end of file has passed on. */
  lemma {:induction false} ClosedHasPassedOn(c: Chain, k: nat, upstream: bool)
    requires Sound(c) && HasForwarder(c, k) && Node(c, k).stage.Closed?
    ensures Sound(Node(c, k)) && Node(c, k).next.link.shut
    ensures Node(c, k).total == |Content(Node(c, k).next)|
    ensures Content(Node(c, k).next) <= Content(c)
    ensures StrandedBefore(c, k, upstream) <==>
              Content(Node(c, k).next) != Content(c) || (upstream && BrokenBefore(c, k))
    ensures !BrokenBefore(c, k) ==> c.link == Link([], true)
    decreases k
  {
    if k == 0 {
      assert Content(c.next) + [] + [] == Content(c.next);
    } else {
      var waiting := upstream || c.link.bytes != [] || Held(c.stage) != [];
      ClosedHasPassedOn(c.next, k - 1, waiting);
      var behind := Held(c.stage) + c.link.bytes;
      assert Content(c) == Content(c.next) + behind && |behind| == |Held(c.stage)| + |c.link.bytes|;
      assert Content(Node(c, k).next) == Content(c) <==>
        behind == [] && Content(Node(c, k).next) == Content(c.next);
    }
  }

  /** A forwarder that was closed by end of file never passes anything on again. */
  lemma {:induction false} ChainStepKeepsClosed(c: Chain, node: nat, e: Event, k: nat)
    requires Sound(c) && ChainEnabled(c, node, e)
    requires HasForwarder(c, k) && Node(c, k).stage.Closed?
    ensures HasForwarder(ChainStep(c, node, e), k) && Node(ChainStep(c, node, e), k).stage.Closed?
    ensures Content(Node(ChainStep(c, node, e), k).next) == Content(Node(c, k).next)
    decreases k
  {
    if k == 0 {
      assert node > 0;
      ChainConserves(c.next, node - 1, e);
    } else if node > 0 {
      ChainStepKeepsClosed(c.next, node - 1, e, k - 1);
    } else {
      RelinkKeepsNode(c.next, NodeStep(c, e).next.link, k - 1);
    }
  }

  lemma RelinkKeepsNode(c: Chain, link: Link, k: nat)
    requires HasForwarder(c, k)
    ensures HasForwarder(WithLink(c, link), k)
    ensures Node(WithLink(c, link), k).stage == Node(c, k).stage
    ensures Node(WithLink(c, link), k).next == Node(c, k).next
  {
  }

  lemma {:induction false} RunKeepsClosed(s: Client, steps: seq<Step>, k: nat)
    requires Inv(s) && CanRun(s, steps)
    requires HasForwarder(s.chain, k) && Node(s.chain, k).stage.Closed?
    ensures var t := Run(s, steps);
            && HasForwarder(t.chain, k) && Node(t.chain, k).stage.Closed?
            && Content(Node(t.chain, k).next) == Content(Node(s.chain, k).next)
    decreases |steps|
  {
    if steps != [] {
      StepConserves(s, steps[0]);
      match steps[0] {
        case At(node, e) => ChainStepKeepsClosed(s.chain, node, e, k);
        case ClientWrites(bytes) => RelinkKeepsNode(s.chain, Next(s, steps[0]).chain.link, k);
        case ClientShutsDown => RelinkKeepsNode(s.chain, Next(s, steps[0]).chain.link, k);
      }
      RunKeepsClosed(Next(s, steps[0]), steps[1..], k);
    }
  }

  /** The half-close that a forwarder passes on at end of file is the last thing it passes on,
      in every run and for every forwarder. Before it went everything the forwarder ever read,
      as many bytes as it reports: a prefix of what the client wrote, and all of it if and only
      if no forwarder before it was left by an error with bytes in it or on the way to it.
      After it nothing follows, in any continuation. */
  lemma HalfCloseIsLast(hops: nat, steps: seq<Step>, more: seq<Step>, k: nat)
    requires CanRun(Client([], Fresh(hops)), steps)
    requires var s := Run(Client([], Fresh(hops)), steps);
             HasForwarder(s.chain, k) && Node(s.chain, k).stage.Closed? && CanRun(s, more)
    ensures var s := Run(Client([], Fresh(hops)), steps);
            var passedOn := Content(Node(s.chain, k).next);
            && Node(s.chain, k).next.link.shut
            && |passedOn| == Node(s.chain, k).total
            && passedOn <= s.written
            && (passedOn == s.written <==> !StrandedBefore(s.chain, k, false))
            && HasForwarder(Run(s, more).chain, k)
            && Content(Node(Run(s, more).chain, k).next) == passedOn
  {
    FreshIsSound(hops);
    RunConserves(Client([], Fresh(hops)), steps);
    var s := Run(Client([], Fresh(hops)), steps);
    ClosedHasPassedOn(s.chain, k, false);
    RunKeepsClosed(s, more, k);
  }
}
