/** Event delivery from a worker process to the session manager: numbering in the worker, the
    identity and sequence check in AcpWorkerClient, deferral and activation in SessionManager. */
module Delivery {
  import opened Results

  const MAX_DEFERRED_COUNT := 256
  const MAX_DEFERRED_BYTES := 1_048_576

  datatype Kind = Update | TrustedUpdate | Capabilities | Permission | Interaction | InteractionResolved | Stderr | Exit

  /** `size` is the serialized payload, None when it cannot be serialized within the bound. */
  datatype Event = Event(kind: Kind, payload: string, size: Option<nat>)

  datatype Identity = Identity(session: string, generation: nat)

  datatype Message = Message(identity: Identity, sequence: nat, event: Event)

  /** What reaches the manager for a client: an event of the worker, the death of its process, or a
      public error made from a stderr line. */
  datatype Item = Shown(event: Event) | Died | Notice(bytes: Option<nat>)

  // ---------- The worker ----------

  /** Events before the launch identity is known are dropped; the rest are numbered from one. */
  datatype Worker = Worker(launch: Option<Identity>, posted: seq<Message>)

  function StartWorker(w: Worker, identity: Identity): Result<Worker, string> {
    if w.launch.None? then Success(w.(launch := Some(identity)))
    else if w.launch.value != identity then Failure("ACP worker launch identity cannot change")
    else Success(w)
  }

  function PostEvent(w: Worker, e: Event): Worker {
    if w.launch.None? then w else w.(posted := w.posted + [Message(w.launch.value, |w.posted| + 1, e)])
  }

  // ---------- The worker's connection ----------

  datatype Connection = Connection(options: Identity, last: nat, exitEmitted: bool, stopping: bool)

  /** The next expected event, or nothing. */
  function Accept(c: Connection, m: Message): Option<Connection> {
    if m.identity != c.options || m.sequence != c.last + 1 then None else Some(c.(last := m.sequence))
  }

  // ---------- The manager's side of one client ----------

  datatype Deferred = Deferred(items: seq<Item>, bytes: nat)

  /** `current` while the pool still holds this client; `emitted` is everything forwarded. */
  datatype Inbox = Inbox(current: bool, deferred: Option<Deferred>, emitted: seq<Item>)

  function SizeOf(i: Item): Option<nat> {
    match i
    case Shown(e) => if e.kind == Exit then Some(0) else e.size
    case Died => Some(0)
    case Notice(bytes) => bytes
  }

  predicate Ends(i: Item) { i.Died? || (i.Shown? && i.event.kind == Exit) }

  /** An exit also takes the client out of the pool. */
  function Forward(b: Inbox, i: Item): Inbox {
    b.(emitted := b.emitted + [i], current := !Ends(i))
  }

  function ForwardOrDefer(b: Inbox, i: Item): Inbox {
    if !b.current then b
    else if b.deferred.None? then Forward(b, i)
    else
      var d, size := b.deferred.value, SizeOf(i);
      if size.None? || |d.items| >= MAX_DEFERRED_COUNT || d.bytes + size.value > MAX_DEFERRED_BYTES then b.(current := false)
      else b.(deferred := Some(Deferred(d.items + [i], d.bytes + size.value)))
  }

  /** The flush loop, when a listener stops the client after `cut` events. */
  function Flushed(items: seq<Item>, cut: nat): seq<Item> {
    if items == [] || cut == 0 then []
    else if Ends(items[0]) then [items[0]]
    else [items[0]] + Flushed(items[1..], cut - 1)
  }

  function Activated(b: Inbox, cut: nat): Inbox
    requires b.current && b.deferred.Some?
  {
    var items := b.deferred.value.items;
    var out := Flushed(items, cut);
    Inbox(|out| == |items| && cut >= |items| && (out == [] || !Ends(out[|out| - 1])), None, b.emitted + out)
  }

  // ---------- Steps ----------

  datatype State = State(worker: Worker, connection: Connection, inbox: Inbox)

  datatype Step =
    | Launch
    | Post(event: Event)
    | Deliver(k: nat)
    | Garbage
    | ProcessExit
    | StderrLine(public: Option<Option<nat>>)
    | StopConnection
    | StopClient
    | Activate(cut: nat)

  predicate Enabled(s: State, step: Step) {
    match step
    case Deliver(k) => k < |s.worker.posted|
    case Activate(_) => s.inbox.current && s.inbox.deferred.Some?
    case _ => true
  }

  function OnEvent(s: State, e: Event): State {
    match e.kind
    case Stderr => s.(inbox := ForwardOrDefer(s.inbox, Notice(e.size)))
    case Exit =>
      if s.connection.exitEmitted then s
      else s.(connection := s.connection.(exitEmitted := true), inbox := ForwardOrDefer(s.inbox, Shown(e)))
    case _ => s.(inbox := ForwardOrDefer(s.inbox, Shown(e)))
  }

  function Handle(s: State, m: Message): State {
    var c := Accept(s.connection, m);
    if c.None? then s else OnEvent(s.(connection := c.value), m.event)
  }

  /** A step that is not enabled does not happen. */
  function Next(s: State, step: Step): State {
    if !Enabled(s, step) then s else
    match step
    case Launch => var w := StartWorker(s.worker, s.connection.options); if w.Success? then s.(worker := w.value) else s
    case Post(e) => s.(worker := PostEvent(s.worker, e))
    case Deliver(k) => Handle(s, s.worker.posted[k])
    case Garbage => s
    case ProcessExit =>
      if s.connection.stopping || s.connection.exitEmitted then s
      else s.(connection := s.connection.(exitEmitted := true), inbox := ForwardOrDefer(s.inbox, Died))
    case StderrLine(public) => if public.None? then s else s.(inbox := ForwardOrDefer(s.inbox, Notice(public.value)))
    case StopConnection => s.(connection := s.connection.(stopping := true))
    case StopClient => s.(connection := s.connection.(stopping := true), inbox := s.inbox.(current := false))
    case Activate(cut) => s.(inbox := Activated(s.inbox, cut))
  }

  function Fresh(options: Identity, deferred: bool): State {
    State(Worker(None, []), Connection(options, 0, false, false),
          Inbox(true, if deferred then Some(Deferred([], 0)) else None, []))
  }

  // ---------- In-order prefix ----------

  /** The events among the items, without public errors. */
  function Events(items: seq<Item>): seq<Item> {
    if items == [] then []
    else if items[|items| - 1].Notice? then Events(items[..|items| - 1])
    else Events(items[..|items| - 1]) + [items[|items| - 1]]
  }

  /** The non-stderr events of the first `k` posted messages. */
  function Visible(posted: seq<Message>, k: nat): seq<Item>
    requires k <= |posted|
  {
    if k == 0 then []
    else if posted[k - 1].event.kind == Stderr then Visible(posted, k - 1)
    else Visible(posted, k - 1) + [Shown(posted[k - 1].event)]
  }

  lemma {:induction false} EventsConcat(a: seq<Item>, b: seq<Item>)
    ensures Events(a + b) == Events(a) + Events(b)
  {
    if b == [] {
      assert a + b == a;
    } else {
      EventsConcat(a, b[..|b| - 1]);
      assert (a + b)[..|a + b| - 1] == a + b[..|b| - 1];
    }
  }

  lemma EventsMore(items: seq<Item>, i: Item)
    ensures Events(items + [i]) == if i.Notice? then Events(items) else Events(items) + [i]
  {
    assert (items + [i])[..|items|] == items;
  }

  /** A prefix of the visible events is the visible events of a prefix. */
  lemma {:induction false} PrefixIsVisible(posted: seq<Message>, k: nat, items: seq<Item>) returns (j: nat)
    requires k <= |posted| && items <= Visible(posted, k)
    ensures j <= k && items == Visible(posted, j)
  {
    if items == Visible(posted, k) {
      j := k;
    } else {
      assert items <= Visible(posted, k - 1);
      j := PrefixIsVisible(posted, k - 1, items);
    }
  }

  lemma {:induction false} VisibleOfMore(posted: seq<Message>, m: Message, k: nat)
    requires k <= |posted|
    ensures Visible(posted + [m], k) == Visible(posted, k)
  {
    if k > 0 {
      VisibleOfMore(posted, m, k - 1);
    }
  }

  /** Whether the connection has handed over an exit: after which posted message, and whether it was
      the death of the process. */
  datatype Ending = Open | Ended(at: nat, died: bool)

  function UpToEnd(posted: seq<Message>, e: Ending): seq<Item>
    requires e.Ended? && e.at <= |posted|
  {
    Visible(posted, e.at) + if e.died then [Died] else []
  }

  /** What the connection has handed over: the visible events it accepted, in order, up to an exit. */
  ghost predicate Stream(posted: seq<Message>, c: Connection, received: seq<Item>, e: Ending) {
    && c.last <= |posted|
    && (e.Open? ==> !c.exitEmitted && received == Visible(posted, c.last))
    && (e.Ended? ==> c.exitEmitted && e.at <= c.last && var p := UpToEnd(posted, e);
                     p <= received && p != [] && Ends(p[|p| - 1]))
  }

  /** An exit is never followed by anything. */
  ghost predicate EndsLast(items: seq<Item>) { forall i :: 0 <= i < |items| - 1 ==> !Ends(items[i]) }

  ghost predicate Received(b: Inbox, received: seq<Item>, e: Ending) {
    && EndsLast(b.emitted) && Events(b.emitted) <= received
    && (b.current && b.deferred.None? ==> Events(b.emitted) == received && e.Open?
                                          && (b.emitted == [] || !Ends(b.emitted[|b.emitted| - 1])))
    && (b.current && b.deferred.Some? ==> b.emitted == [] && Events(b.deferred.value.items) == received)
  }

  /** The worker numbers its messages one after another under the identity of its connection. */
  ghost predicate Numbered(w: Worker, options: Identity) {
    && (w.launch.Some? ==> w.launch.value == options)
    && forall k :: 0 <= k < |w.posted| ==> w.posted[k].sequence == k + 1 && w.posted[k].identity == options
  }

  ghost predicate Inv(s: State, received: seq<Item>, e: Ending) {
    && Numbered(s.worker, s.connection.options)
    && Stream(s.worker.posted, s.connection, received, e)
    && Received(s.inbox, received, e)
  }

  // ---------- The inbox ----------

  lemma EndsLastMore(items: seq<Item>, i: Item)
    requires EndsLast(items) && (items == [] || !Ends(items[|items| - 1]))
    ensures EndsLast(items + [i])
  {}

  /** An event handed over is emitted, kept for later or dropped for good. */
  lemma InboxTakes(b: Inbox, received: seq<Item>, e: Ending, i: Item, after: Ending)
    requires Received(b, received, e) && !i.Notice?
    requires e.Open? && !Ends(i) ==> after.Open?
    ensures Received(ForwardOrDefer(b, i), received + [i], after)
  {
    EventsMore(b.emitted, i);
    if b.current && b.deferred.None? {
      EndsLastMore(b.emitted, i);
    }
    if b.current && b.deferred.Some? {
      EventsMore(b.deferred.value.items, i);
    }
    hide EndsLast;
  }

  lemma InboxTakesNotice(b: Inbox, received: seq<Item>, e: Ending, i: Item)
    requires Received(b, received, e) && i.Notice?
    ensures Received(ForwardOrDefer(b, i), received, e)
  {
    EventsMore(b.emitted, i);
    if b.current && b.deferred.None? {
      EndsLastMore(b.emitted, i);
    }
    if b.current && b.deferred.Some? {
      EventsMore(b.deferred.value.items, i);
    }
    hide EndsLast;
  }

  lemma {:induction false} FlushedIsPrefix(items: seq<Item>, cut: nat)
    ensures Flushed(items, cut) <= items && EndsLast(Flushed(items, cut))
    decreases |items|
  {
    if items != [] && cut > 0 && !Ends(items[0]) {
      FlushedIsPrefix(items[1..], cut - 1);
      var rest := Flushed(items[1..], cut - 1);
      assert items == [items[0]] + items[1..];
      forall i | 0 <= i < |rest| ensures ([items[0]] + rest)[i + 1] == rest[i] {}
    }
  }

  lemma EventsOfPrefix(items: seq<Item>, out: seq<Item>)
    requires out <= items
    ensures Events(out) <= Events(items)
  {
    assert items == out + items[|out|..];
    EventsConcat(out, items[|out|..]);
  }

  lemma {:induction false} EventsAreItems(items: seq<Item>)
    ensures forall i <- Events(items) :: i in items
  {
    if items != [] {
      EventsAreItems(items[..|items| - 1]);
    }
  }

  lemma NoEnds(items: seq<Item>)
    requires EndsLast(items) && (items == [] || !Ends(items[|items| - 1]))
    ensures forall i <- items :: !Ends(i)
  {}

  lemma EndIsReceived(posted: seq<Message>, c: Connection, received: seq<Item>, e: Ending)
    requires Stream(posted, c, received, e) && e.Ended?
    ensures exists i :: i in received && Ends(i)
  {
    var p := UpToEnd(posted, e);
    assert received[|p| - 1] == p[|p| - 1];
    assert received[|p| - 1] in received;
  }

  /** If nothing cuts the flush short, no exit was waiting in the buffer. */
  lemma WholeFlushIsOpen(posted: seq<Message>, c: Connection, items: seq<Item>, received: seq<Item>, e: Ending)
    requires Stream(posted, c, received, e) && Events(items) == received
    requires EndsLast(items) && (items == [] || !Ends(items[|items| - 1]))
    ensures e.Open?
  {
    EventsAreItems(items);
    NoEnds(items);
    hide Events, EndsLast, Stream;
    if e.Ended? {
      EndIsReceived(posted, c, received, e);
    }
  }

  lemma ActivateKeeps(s: State, received: seq<Item>, e: Ending, cut: nat)
    requires Inv(s, received, e) && s.inbox.current && s.inbox.deferred.Some?
    ensures Received(Activated(s.inbox, cut), received, e)
  {
    var items := s.inbox.deferred.value.items;
    var out := Flushed(items, cut);
    FlushedIsPrefix(items, cut);
    EventsOfPrefix(items, out);
    assert [] + out == out;
    if |out| == |items| && (out == [] || !Ends(out[|out| - 1])) {
      assert out == items;
      WholeFlushIsOpen(s.worker.posted, s.connection, items, received, e);
    }
    hide EndsLast;
  }

  // ---------- The connection ----------

  lemma VisibleNext(posted: seq<Message>, k: nat)
    requires k < |posted|
    ensures Visible(posted, k + 1) == if posted[k].event.kind == Stderr then Visible(posted, k)
                                      else Visible(posted, k) + [Shown(posted[k].event)]
  {}

  /** Only the next message in posting order is accepted. */
  lemma AcceptsInOrder(s: State, received: seq<Item>, e: Ending, k: nat)
    requires Inv(s, received, e) && k < |s.worker.posted|
    ensures Accept(s.connection, s.worker.posted[k]).Some? <==> k == s.connection.last
  {}

  lemma OpenMeansNoExit(posted: seq<Message>, c: Connection, received: seq<Item>, e: Ending)
    requires Stream(posted, c, received, e)
    ensures e.Open? <==> !c.exitEmitted
  {}

  /** An accepted stderr event, or an exit after an exit, leaves the stream as it is. */
  lemma StreamSkips(posted: seq<Message>, c: Connection, received: seq<Item>, e: Ending)
    requires Stream(posted, c, received, e) && c.last < |posted|
    requires posted[c.last].event.kind == Stderr || (posted[c.last].event.kind == Exit && c.exitEmitted)
    ensures Stream(posted, c.(last := c.last + 1), received, e)
  {
    hide Visible, Ends;
    VisibleNext(posted, c.last);
  }

  /** Any other accepted event extends it. */
  lemma StreamShows(posted: seq<Message>, c: Connection, received: seq<Item>, e: Ending)
    requires Stream(posted, c, received, e) && c.last < |posted|
    requires posted[c.last].event.kind != Stderr && posted[c.last].event.kind != Exit
    ensures Stream(posted, c.(last := c.last + 1), received + [Shown(posted[c.last].event)], e)
  {
    hide Visible, Ends;
    VisibleNext(posted, c.last);
    if e.Ended? {
      PrefixOfMore(UpToEnd(posted, e), received, Shown(posted[c.last].event));
      hide UpToEnd;
    }
  }

  lemma PrefixOfMore(p: seq<Item>, items: seq<Item>, i: Item)
    requires p <= items
    ensures p <= items + [i]
  {}

  lemma StreamExits(posted: seq<Message>, c: Connection, received: seq<Item>, e: Ending)
    requires Stream(posted, c, received, e) && c.last < |posted|
    requires posted[c.last].event.kind == Exit && !c.exitEmitted
    ensures Stream(posted, c.(last := c.last + 1, exitEmitted := true), received + [Shown(posted[c.last].event)],
                   Ended(c.last + 1, false))
  {
    hide Visible;
    VisibleNext(posted, c.last);
    var p := received + [Shown(posted[c.last].event)];
    assert p + [] == p;
  }

  lemma StreamDies(posted: seq<Message>, c: Connection, received: seq<Item>, e: Ending)
    requires Stream(posted, c, received, e) && !c.exitEmitted
    ensures Stream(posted, c.(exitEmitted := true), received + [Died], Ended(c.last, true))
  {
    hide Visible;
  }

  lemma StreamOfMore(posted: seq<Message>, m: Message, c: Connection, received: seq<Item>, e: Ending)
    requires Stream(posted, c, received, e)
    ensures Stream(posted + [m], c, received, e)
  {
    VisibleOfMore(posted, m, c.last);
    if e.Ended? {
      VisibleOfMore(posted, m, e.at);
    }
    hide Visible;
  }

  // ---------- Every step ----------

  lemma DeliverKeeps(s: State, received: seq<Item>, e: Ending, k: nat) returns (received': seq<Item>, e': Ending)
    requires Inv(s, received, e) && k < |s.worker.posted|
    ensures Inv(Next(s, Deliver(k)), received', e')
  {
    AcceptsInOrder(s, received, e, k);
    received', e' := received, e;
    if k == s.connection.last {
      var event := s.worker.posted[k].event;
      OpenMeansNoExit(s.worker.posted, s.connection, received, e);
      hide Stream, Received, ForwardOrDefer;
      if event.kind == Stderr {
        StreamSkips(s.worker.posted, s.connection, received, e);
        InboxTakesNotice(s.inbox, received, e, Notice(event.size));
      } else if event.kind == Exit {
        if s.connection.exitEmitted {
          StreamSkips(s.worker.posted, s.connection, received, e);
        } else {
          received', e' := received + [Shown(event)], Ended(k + 1, false);
          StreamExits(s.worker.posted, s.connection, received, e);
          InboxTakes(s.inbox, received, e, Shown(event), e');
        }
      } else {
        received' := received + [Shown(event)];
        StreamShows(s.worker.posted, s.connection, received, e);
        InboxTakes(s.inbox, received, e, Shown(event), e);
      }
    }
  }

  lemma ProcessExitKeeps(s: State, received: seq<Item>, e: Ending) returns (received': seq<Item>, e': Ending)
    requires Inv(s, received, e)
    ensures Inv(Next(s, ProcessExit), received', e')
  {
    received', e' := received, e;
    if !s.connection.stopping && !s.connection.exitEmitted {
      received', e' := received + [Died], Ended(s.connection.last, true);
      StreamDies(s.worker.posted, s.connection, received, e);
      InboxTakes(s.inbox, received, e, Died, e');
    }
    hide Stream, Received, ForwardOrDefer;
  }

  lemma PostKeeps(s: State, received: seq<Item>, e: Ending, event: Event)
    requires Inv(s, received, e)
    ensures Inv(Next(s, Post(event)), received, e)
  {
    if s.worker.launch.Some? {
      StreamOfMore(s.worker.posted, Message(s.worker.launch.value, |s.worker.posted| + 1, event), s.connection, received, e);
    }
    hide Stream, Received;
  }

  lemma StepKeeps(s: State, received: seq<Item>, e: Ending, step: Step) returns (received': seq<Item>, e': Ending)
    requires Inv(s, received, e) && Enabled(s, step)
    ensures Inv(Next(s, step), received', e')
  {
    received', e' := received, e;
    match step
    case Deliver(k) => received', e' := DeliverKeeps(s, received, e, k);
    case ProcessExit => received', e' := ProcessExitKeeps(s, received, e);
    case Post(event) => PostKeeps(s, received, e, event);
    case StderrLine(public) =>
      if public.Some? {
        InboxTakesNotice(s.inbox, received, e, Notice(public.value));
        hide Stream, Received;
      }
    case Activate(cut) => ActivateKeeps(s, received, e, cut); hide Stream, Received, Activated;
    case StopConnection => StoppingKeeps(s, received, e, s.inbox);
    case StopClient => StoppingKeeps(s, received, e, s.inbox.(current := false));
    case Launch =>
    case Garbage =>
  }

  lemma StoppingKeeps(s: State, received: seq<Item>, e: Ending, inbox: Inbox)
    requires Inv(s, received, e) && (inbox == s.inbox || inbox == s.inbox.(current := false))
    ensures Inv(s.(connection := s.connection.(stopping := true), inbox := inbox), received, e)
  {}

  // ---------- Runs ----------

  ghost function Run(s: State, steps: seq<Step>): State
    decreases steps
  {
    if steps == [] then s else Run(Next(s, steps[0]), steps[1..])
  }

  lemma {:induction false} RunKeeps(s: State, received: seq<Item>, e: Ending, steps: seq<Step>)
    returns (received': seq<Item>, e': Ending)
    requires Inv(s, received, e)
    ensures Inv(Run(s, steps), received', e')
    decreases steps
  {
    hide Inv, Enabled;
    received', e' := received, e;
    if steps != [] {
      if Enabled(s, steps[0]) {
        hide Next;
        received', e' := StepKeeps(s, received, e, steps[0]);
      }
      received', e' := RunKeeps(Next(s, steps[0]), received', e', steps[1..]);
    }
  }

  lemma NotYetEnded(emitted: seq<Item>, p: seq<Item>, i: nat)
    requires EndsLast(emitted) && i < |emitted| - 1 && i < |p|
    ensures p[i] == emitted[i] ==> !Ends(p[i])
  {}

  lemma ShortOfEnd(emitted: seq<Item>, received: seq<Item>, p: seq<Item>)
    requires emitted <= received && p <= received && EndsLast(emitted) && p != [] && Ends(p[|p| - 1])
    ensures emitted <= p
  {
    hide EndsLast;
    if |emitted| > |p| {
      NotYetEnded(emitted, p, |p| - 1);
    }
  }

  lemma {:induction false} EndsLastOfEvents(items: seq<Item>)
    requires EndsLast(items)
    ensures EndsLast(Events(items))
  {
    if items != [] {
      var front := items[..|items| - 1];
      EndsLastOfEvents(front);
      EventsAreItems(front);
      forall i <- front ensures !Ends(i) {
        var k :| 0 <= k < |front| && front[k] == i;
        assert items[k] == i;
      }
      forall k | 0 <= k < |Events(front)| ensures !Ends(Events(front)[k]) {
        assert Events(front)[k] in Events(front);
      }
    }
  }

  lemma FromInv(s: State, received: seq<Item>, e: Ending) returns (k: nat)
    requires Inv(s, received, e)
    ensures k <= |s.worker.posted|
    ensures Events(s.inbox.emitted) == Visible(s.worker.posted, k)
            || Events(s.inbox.emitted) == Visible(s.worker.posted, k) + [Died]
  {
    var out := Events(s.inbox.emitted);
    if e.Open? {
      k := PrefixIsVisible(s.worker.posted, s.connection.last, out);
    } else {
      var p := UpToEnd(s.worker.posted, e);
      EndsLastOfEvents(s.inbox.emitted);
      ShortOfEnd(out, received, p);
      if out == p && e.died {
        k := e.at;
      } else {
        k := PrefixIsVisible(s.worker.posted, e.at, out);
      }
    }
  }

  /** Whatever the channel loses, repeats or reorders, whenever the client is activated, cut off or
      stopped: the events the manager emits are the visible events of a prefix of what the worker
      posted, each once and in order, possibly followed by the death of the process. */
  lemma EmittedIsAnInOrderPrefix(options: Identity, deferred: bool, steps: seq<Step>) returns (k: nat)
    ensures var s := Run(Fresh(options, deferred), steps);
            && k <= |s.worker.posted|
            && (Events(s.inbox.emitted) == Visible(s.worker.posted, k)
                || Events(s.inbox.emitted) == Visible(s.worker.posted, k) + [Died])
  {
    var received, e := RunKeeps(Fresh(options, deferred), [], Open, steps);
    k := FromInv(Run(Fresh(options, deferred), steps), received, e);
  }

  // ---------- Nothing is lost ----------

  function Sizes(items: seq<Item>): nat {
    if items == [] then 0
    else
      var size := SizeOf(items[|items| - 1]);
      Sizes(items[..|items| - 1]) + if size.Some? then size.value else 0
  }

  /** The buffer takes one more. */
  predicate Fits(items: seq<Item>, i: Item) {
    SizeOf(i).Some? && |items| < MAX_DEFERRED_COUNT && Sizes(items) + SizeOf(i).value <= MAX_DEFERRED_BYTES
  }

  /** The buffer's count of bytes is the sum of its items. */
  predicate Counted(b: Inbox) { b.deferred.Some? ==> b.deferred.value.bytes == Sizes(b.deferred.value.items) }

  /** Everything kept for this client, forwarded or not. */
  function Held(b: Inbox): seq<Item> { b.emitted + if b.deferred.Some? then b.deferred.value.items else [] }

  predicate NoEnd(items: seq<Item>) { forall i <- items :: !Ends(i) }

  /** A deferred client is given up exactly when its buffer cannot take the event. */
  lemma DeferredExactly(b: Inbox, i: Item)
    requires b.current && b.deferred.Some? && Counted(b)
    ensures var r := ForwardOrDefer(b, i);
            && (r.current <==> Fits(b.deferred.value.items, i)) && Counted(r)
            && (r.current ==> r.emitted == b.emitted && r.deferred.Some?
                              && r.deferred.value.items == b.deferred.value.items + [i])
  {
    SizesMore(b.deferred.value.items, i);
    hide Sizes, Ends;
  }

  lemma SizesMore(items: seq<Item>, i: Item)
    ensures Sizes(items + [i]) == Sizes(items) + if SizeOf(i).Some? then SizeOf(i).value else 0
  {
    assert (items + [i])[..|items|] == items;
    hide SizeOf;
  }

  lemma {:induction false} FlushStops(items: seq<Item>, cut: nat)
    ensures var out := Flushed(items, cut);
            |out| == |items| || |out| == cut || (out != [] && Ends(out[|out| - 1]))
    decreases |items|
  {
    if items != [] && cut > 0 && !Ends(items[0]) {
      FlushStops(items[1..], cut - 1);
    }
  }

  /** With no listener stopping the client, the flush forwards everything up to an exit; without one the
      client stays. */
  lemma ActivationForwardsAll(b: Inbox, cut: nat)
    requires b.current && b.deferred.Some? && cut >= |b.deferred.value.items| && EndsLast(b.deferred.value.items)
    ensures var r := Activated(b, cut);
            && r.emitted == b.emitted + b.deferred.value.items && r.deferred.None?
            && (r.current <==> NoEnd(b.deferred.value.items))
  {
    var items := b.deferred.value.items;
    var out := Flushed(items, cut);
    FlushedIsPrefix(items, cut);
    if out != [] && |out| < |items| {
      assert !Ends(items[|out| - 1]);
    }
    FlushStops(items, cut);
    assert out == items;
    if items != [] && !Ends(items[|items| - 1]) {
      NoEnds(items);
    }
  }

  /** What the connection hands over in a step. */
  function Handed(s: State, step: Step): seq<Item> {
    match step
    case Deliver(k) =>
      if k >= |s.worker.posted| || s.worker.posted[k].identity != s.connection.options
         || s.worker.posted[k].sequence != s.connection.last + 1
      then []
      else
        var e := s.worker.posted[k].event;
        if e.kind == Stderr then [Notice(e.size)]
        else if e.kind == Exit && s.connection.exitEmitted then [] else [Shown(e)]
    case ProcessExit => if s.connection.stopping || s.connection.exitEmitted then [] else [Died]
    case StderrLine(public) => if public.Some? then [Notice(public.value)] else []
    case _ => []
  }

  /** The client is not stopped, no process ends, no listener stops the flush, and what is deferred fits. */
  predicate Calm(s: State, step: Step) {
    && !step.StopClient? && NoEnd(Handed(s, step))
    && (step.Activate? && s.inbox.deferred.Some? ==> step.cut >= |s.inbox.deferred.value.items|)
    && (s.inbox.deferred.Some? ==> forall i <- Handed(s, step) :: Fits(s.inbox.deferred.value.items, i))
  }

  /** Everything the connection hands over in a run, in order. */
  ghost function HandedAll(s: State, steps: seq<Step>): seq<Item>
    decreases steps
  {
    if steps == [] then [] else Handed(s, steps[0]) + HandedAll(Next(s, steps[0]), steps[1..])
  }

  ghost predicate AllCalm(s: State, steps: seq<Step>)
    decreases steps
  {
    steps == [] || (Calm(s, steps[0]) && AllCalm(Next(s, steps[0]), steps[1..]))
  }

  ghost predicate Keeping(b: Inbox) { b.current && Counted(b) && NoEnd(Held(b)) }

  lemma InboxKeepsOne(b: Inbox, i: Item)
    requires Keeping(b) && !Ends(i) && (b.deferred.Some? ==> Fits(b.deferred.value.items, i))
    ensures var r := ForwardOrDefer(b, i);
            Keeping(r) && Held(r) == Held(b) + [i] && r.deferred.Some? == b.deferred.Some?
  {
    if b.deferred.Some? {
      DeferredExactly(b, i);
      assert b.emitted + b.deferred.value.items + [i] == b.emitted + (b.deferred.value.items + [i]);
    } else {
      assert b.emitted + [] == b.emitted && b.emitted + [i] + [] == b.emitted + [i];
    }
  }

  lemma ActivationKeeps(b: Inbox, cut: nat)
    requires Keeping(b) && b.deferred.Some? && cut >= |b.deferred.value.items|
    ensures var r := Activated(b, cut); Keeping(r) && Held(r) == Held(b) && r.deferred.None?
  {
    forall i | i in b.deferred.value.items ensures !Ends(i) {
      assert i in Held(b);
    }
    ActivationForwardsAll(b, cut);
    assert Held(b) + [] == Held(b);
  }

  lemma CalmStepKeeps(s: State, step: Step)
    requires Keeping(s.inbox) && Calm(s, step)
    ensures var t := Next(s, step);
            && Keeping(t.inbox) && Held(t.inbox) == Held(s.inbox) + Handed(s, step)
            && (t.inbox.deferred.Some? <==> s.inbox.deferred.Some? && !step.Activate?)
  {
    assert Held(s.inbox) + [] == Held(s.inbox);
    var handed := Handed(s, step);
    if step.Activate? {
      if s.inbox.deferred.Some? {
        ActivationKeeps(s.inbox, step.cut);
      }
    } else if handed != [] {
      assert handed == [handed[0]] && handed[0] in handed;
      hide ForwardOrDefer, Activated, Held, Keeping, Fits;
      InboxKeepsOne(s.inbox, handed[0]);
    }
  }

  lemma {:induction false} CalmRunKeeps(s: State, steps: seq<Step>)
    requires Keeping(s.inbox) && AllCalm(s, steps)
    ensures var t := Run(s, steps);
            && Keeping(t.inbox) && Held(t.inbox) == Held(s.inbox) + HandedAll(s, steps)
            && (t.inbox.deferred.Some? <==> s.inbox.deferred.Some? && forall step <- steps :: !step.Activate?)
    decreases steps
  {
    hide Next, Keeping, Held, Handed, Calm;
    if steps == [] {
      assert Held(s.inbox) + [] == Held(s.inbox);
    } else {
      CalmStepKeeps(s, steps[0]);
      CalmRunKeeps(Next(s, steps[0]), steps[1..]);
      assert steps == [steps[0]] + steps[1..];
    }
  }

  /** In a run in which the client is not stopped, no process ends and nothing overflows, the client
      stays; once it is active, everything the connection handed over has been emitted, public errors
      included, and of the worker's events those are all that were accepted. */
  lemma NothingIsLost(options: Identity, deferred: bool, steps: seq<Step>)
    requires AllCalm(Fresh(options, deferred), steps)
    ensures var s := Run(Fresh(options, deferred), steps);
            && s.inbox.current && (s.inbox.deferred.Some? <==> deferred && forall step <- steps :: !step.Activate?)
            && Held(s.inbox) == HandedAll(Fresh(options, deferred), steps)
            && s.connection.last <= |s.worker.posted|
            && (s.inbox.deferred.None? ==>
                  s.inbox.emitted == HandedAll(Fresh(options, deferred), steps)
                  && Events(s.inbox.emitted) == Visible(s.worker.posted, s.connection.last))
  {
    var f := Fresh(options, deferred);
    assert Held(f.inbox) == [];
    CalmRunKeeps(f, steps);
    var received, e := RunKeeps(f, [], Open, steps);
    var s := Run(f, steps);
    hide Run, HandedAll, AllCalm, Visible, Events;
    assert [] + HandedAll(f, steps) == HandedAll(f, steps);
    assert s.inbox.emitted + [] == s.inbox.emitted;
  }

  /** Delivering `n` messages in order. */
  function InOrder(from: nat, n: nat): seq<Step>
    decreases n
  {
    if n == 0 then [] else [Deliver(from)] + InOrder(from + 1, n - 1)
  }

  /** Delivering in order what is still to come leaves nothing unaccepted. */
  lemma {:induction false} DeliveredInOrder(s: State, received: seq<Item>, e: Ending, n: nat)
    requires Inv(s, received, e) && s.connection.last + n == |s.worker.posted|
    ensures var t := Run(s, InOrder(s.connection.last, n));
            t.connection.last == |t.worker.posted| && t.worker == s.worker
    decreases n
  {
    var from := s.connection.last;
    if n > 0 {
      var received', e' := DeliverKeeps(s, received, e, from);
      AcceptsInOrder(s, received, e, from);
      var t := Next(s, Deliver(from));
      assert t.connection.last == from + 1 && t.worker == s.worker;
      hide Inv, Next;
      DeliveredInOrder(t, received', e', n - 1);
      assert InOrder(from, n)[1..] == InOrder(from + 1, n - 1);
    }
  }

  // ---------- The two ends as objects ----------

  class AcpWorker {
    var launchIdentity: Option<Identity>
    var eventSequence: nat
    /** Every message posted to the parent, oldest first. */
    ghost var posted: seq<Message>

    ghost predicate Valid()
      reads this
    {
      eventSequence == |posted|
    }

    ghost function Value(): Worker
      reads this
    {
      Worker(launchIdentity, posted)
    }

    constructor ()
      ensures Valid() && Value() == Worker(None, [])
    {
      launchIdentity, eventSequence, posted := None, 0, [];
    }

    method Start(identity: Identity) returns (r: Result<(), string>)
      requires Valid()
      modifies this
      ensures Valid()
      ensures r.Success? <==> StartWorker(old(Value()), identity).Success?
      ensures Value() == if r.Success? then StartWorker(old(Value()), identity).value else old(Value())
    {
      if launchIdentity.None? {
        launchIdentity := Some(identity);
      } else if launchIdentity.value != identity {
        return Failure("ACP worker launch identity cannot change");
      }
      return Success(());
    }

    /** None stands for an event dropped before the launch identity was set. */
    method Post(e: Event) returns (message: Option<Message>)
      requires Valid()
      modifies this
      ensures Valid() && Value() == PostEvent(old(Value()), e)
      ensures message == if old(launchIdentity).None? then None
                         else Some(Message(old(launchIdentity).value, old(eventSequence) + 1, e))
    {
      if launchIdentity.None? { return None; }
      eventSequence := eventSequence + 1;
      var m := Message(launchIdentity.value, eventSequence, e);
      posted := posted + [m];
      return Some(m);
    }
  }

  class AcpWorkerClient {
    const options: Identity
    var lastEventSequence: nat
    var exitEmitted: bool
    var stopping: bool

    ghost function Value(): Connection
      reads this
    {
      Connection(options, lastEventSequence, exitEmitted, stopping)
    }

    constructor (options: Identity)
      ensures Value() == Connection(options, 0, false, false)
    {
      this.options, lastEventSequence, exitEmitted, stopping := options, 0, false, false;
    }

    /** What the message makes the manager see; a fault is a message out of turn. */
    method HandleMessage(m: Message) returns (item: Option<Item>, fault: bool)
      modifies this
      ensures fault <==> Accept(old(Value()), m).None?
      ensures fault ==> item.None? && Value() == old(Value())
      ensures forall w: Worker, b: Inbox ::
                Handle(State(w, old(Value()), b), m)
                == State(w, Value(), if item.Some? then ForwardOrDefer(b, item.value) else b)
    {
      if m.identity != options || m.sequence != lastEventSequence + 1 {
        return None, true;
      }
      lastEventSequence := m.sequence;
      match m.event.kind
      case Stderr => return Some(Notice(m.event.size)), false;
      case Exit =>
        if exitEmitted { return None, false; }
        exitEmitted := true;
        return Some(Shown(m.event)), false;
      case _ => return Some(Shown(m.event)), false;
    }
  }
}
