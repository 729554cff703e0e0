/**
 * Putting messages together again: text messages from the fragments of section 5.4 of RFC 6455,
 * and large messages from chunks, which may come in any order.
 */
module WsAssembly {
  import opened Wrappers
  import opened Basics
  import opened WsCodec

  // ---------------------------------------------------------------------------------------
  // Fragments
  // ---------------------------------------------------------------------------------------

  /** The opcode of the message whose fragments are being gathered, and its fragments so far. */
  datatype Gathering = Gathering(opcode: Option<Opcode>, parts: seq<seq<byte>>)

  datatype Event = Stopped | Ponged(payload: seq<byte>) | Delivered(message: seq<byte>) | Nothing

  const CLOSE: Opcode := 8
  const PING: Opcode := 9
  const TEXT: Opcode := 1
  const MORE: Opcode := 0

  function Joined(parts: seq<seq<byte>>): seq<byte> {
    if parts == [] then [] else parts[0] + Joined(parts[1..])
  }

  /** A control message carries at most 125 bytes. */
  function Echo(payload: seq<byte>): seq<byte> {
    if |payload| <= 125 then payload else payload[..125]
  }

  function Step(g: Gathering, f: Incoming): (Gathering, Event) {
    if f.opcode == CLOSE then (g, Stopped)
    else if f.opcode == PING then (g, Ponged(Echo(f.payload)))
    else if f.opcode == TEXT then
      if f.final then (g, Delivered(f.payload)) else (Gathering(Some(TEXT), [f.payload]), Nothing)
    else if f.opcode == MORE then
      if g.opcode.None? then (g, Nothing)
      else if !f.final then (g.(parts := g.parts + [f.payload]), Nothing)
      else (Gathering(None, []), if g.opcode == Some(TEXT) then Delivered(Joined(g.parts + [f.payload])) else Nothing)
    else (Gathering(None, []), Nothing)
  }

  class FragmentReader {
    var fragmentOpcode: Option<Opcode>
    var fragmentParts: seq<seq<byte>>

    constructor ()
      ensures Current() == Gathering(None, [])
    {
      fragmentOpcode, fragmentParts := None, [];
    }

    function Current(): Gathering
      reads this
    {
      Gathering(fragmentOpcode, fragmentParts)
    }

    /** One round of the monitor's loop. */
    method Receive(opcode: Opcode, isFinal: bool, payload: seq<byte>) returns (event: Event)
      modifies this
      ensures (Current(), event) == Step(old(Current()), Incoming(opcode, isFinal, payload))
    {
      if opcode == 8 {
        return Stopped;
      }
      if opcode == 9 {
        return Ponged(if |payload| <= 125 then payload else payload[..125]);
      }
      var message: Option<seq<byte>> := None;
      if opcode == 1 {
        if isFinal {
          message := Some(payload);
        } else {
          fragmentOpcode := Some(opcode);
          fragmentParts := [payload];
          return Nothing;
        }
      } else if opcode == 0 {
        if fragmentOpcode.None? {
          return Nothing;
        }
        fragmentParts := fragmentParts + [payload];
        if !isFinal {
          return Nothing;
        }
        if fragmentOpcode == Some(1) {
          message := Some(Joined(fragmentParts));
        }
        fragmentOpcode := None;
        fragmentParts := [];
      } else {
        fragmentOpcode := None;
        fragmentParts := [];
        return Nothing;
      }
      event := if message.Some? then Delivered(message.value) else Nothing;
    }
  }

  const IDLE: Gathering := Gathering(None, [])

  /** The events of a run of the loop, which a close ends. */
  function Events(g: Gathering, fs: seq<Incoming>): seq<Event>
    decreases |fs|
  {
    if fs == [] then []
    else
      var (g1, e) := Step(g, fs[0]);
      if e.Stopped? then [e] else [e] + Events(g1, fs[1..])
  }

  /** The monitor: it reads and handles frames until a close or the end, going on after timeouts. */
  method Monitor(socket: Socket) returns (events: seq<Event>)
    modifies socket
    ensures events == Events(IDLE, ReadOn(old(socket.arrivals)))
  {
    var reader := new FragmentReader();
    events := [];
    ghost var all := Events(IDLE, ReadOn(socket.arrivals));
    while true
      invariant all == events + Events(reader.Current(), ReadOn(socket.arrivals))
      decreases ToCome(socket.arrivals)
    {
      ReadOnStep(socket.arrivals);
      ghost var g := reader.Current();
      var frame := socket.ReadWsFramePatiently();
      if frame.TimedOut? {
        continue;
      }
      if frame.Closed? {
        break;
      }
      var event := reader.Receive(frame.value.opcode, frame.value.final, frame.value.payload);
      EventsFirst(g, frame.value, ReadOn(socket.arrivals), events);
      events := events + [event];
      if event.Stopped? {
        break;
      }
    }
  }

  lemma EventsFirst(g: Gathering, f: Incoming, fs: seq<Incoming>, before: seq<Event>)
    ensures var (g1, e) := Step(g, f);
      before + Events(g, [f] + fs) == if e.Stopped? then before + [e] else before + [e] + Events(g1, fs)
  {
    assert ([f] + fs)[1..] == fs;
    var (g1, e) := Step(g, f);
    assert before + ([e] + Events(g1, fs)) == before + [e] + Events(g1, fs);
  }

  function Pongs(es: seq<Event>): seq<seq<byte>> {
    if es == [] then [] else (if es[0].Ponged? then [es[0].payload] else []) + Pongs(es[1..])
  }

  function PingEchoes(fs: seq<Incoming>): seq<seq<byte>> {
    if fs == [] || fs[0].opcode == CLOSE then []
    else (if fs[0].opcode == PING then [Echo(fs[0].payload)] else []) + PingEchoes(fs[1..])
  }

  /** Every ping before the first close is answered, in turn. */
  lemma {:induction false} PingsAnswered(g: Gathering, fs: seq<Incoming>)
    ensures Pongs(Events(g, fs)) == PingEchoes(fs)
    decreases |fs|
  {
    if fs != [] {
      var (g1, e) := Step(g, fs[0]);
      PingsAnswered(g1, fs[1..]);
      if !e.Stopped? { assert ([e] + Events(g1, fs[1..]))[1..] == Events(g1, fs[1..]); }
    }
  }

  /** What the continuations among the frames carry. */
  function Carried(fs: seq<Incoming>): seq<byte> {
    if fs == [] then []
    else Carried(fs[..|fs| - 1]) + CarriedBy(fs[|fs| - 1])
  }

  /** Pings, whole texts and continuations that are not the last leave a message open. */
  predicate Transparent(f: Incoming) {
    f.opcode == PING || (f.opcode == TEXT && f.final) || (f.opcode == MORE && !f.final)
  }

  /** Frame `j` opens a text in fragments that is still open before frame `k`. */
  ghost predicate Opens(fs: seq<Incoming>, j: nat, k: nat) {
    && j < k <= |fs| && fs[j].opcode == TEXT && !fs[j].final
    && forall i :: j < i < k ==> Transparent(fs[i])
  }

  ghost predicate NoClose(fs: seq<Incoming>) {
    forall i :: 0 <= i < |fs| ==> fs[i].opcode != CLOSE
  }

  function StateAfter(fs: seq<Incoming>): Gathering {
    if fs == [] then IDLE else Step(StateAfter(fs[..|fs| - 1]), fs[|fs| - 1]).0
  }

  lemma {:induction false} JoinedMore(parts: seq<seq<byte>>, part: seq<byte>)
    ensures Joined(parts + [part]) == Joined(parts) + part
  {
    if parts == [] {
      assert [part][1..] == [];
    } else {
      assert (parts + [part])[1..] == parts[1..] + [part];
      JoinedMore(parts[1..], part);
    }
  }

  /** Where the open text begins. */
  function OpenAt(fs: seq<Incoming>): (r: Option<nat>)
    ensures r.Some? ==> r.value < |fs|
  {
    if fs == [] then None
    else
      var f := fs[|fs| - 1];
      if f.opcode == TEXT && !f.final then Some(|fs| - 1)
      else if Transparent(f) then OpenAt(fs[..|fs| - 1])
      else None
  }

  lemma {:induction false} OpenAtIs(fs: seq<Incoming>, j: nat)
    ensures OpenAt(fs) == Some(j) <==> Opens(fs, j, |fs|)
  {
    if fs != [] {
      var n := |fs| - 1;
      OpenAtIs(fs[..n], j);
      if Opens(fs, j, |fs|) && j < n { assert Transparent(fs[n]) && Opens(fs[..n], j, n); }
      if Opens(fs[..n], j, n) && Transparent(fs[n]) {
        forall i | j < i < |fs| ensures Transparent(fs[i]) { if i < n { assert fs[..n][i] == fs[i]; } }
      }
    }
  }

  /** What there is of the open text. */
  function OpenText(fs: seq<Incoming>): Option<seq<byte>> {
    var open := OpenAt(fs);
    if open.None? then None else Some(fs[open.value].payload + Carried(fs[open.value + 1..]))
  }

  ghost predicate Gathers(g: Gathering, text: Option<seq<byte>>) {
    if text.None? then g.opcode.None? else g.opcode == Some(TEXT) && Joined(g.parts) == text.value
  }

  /** A message is being gathered exactly while one is open, and it is that one's fragments. */
  lemma {:induction false} GatheringIs(fs: seq<Incoming>)
    requires NoClose(fs)
    ensures Gathers(StateAfter(fs), OpenText(fs))
    decreases |fs|
  {
    if fs != [] {
      var pre := fs[..|fs| - 1];
      GatheringIs(pre);
      OpenTextMore(fs);
      GathersMore(StateAfter(pre), OpenText(pre), fs[|fs| - 1]);
    }
  }

  function CarriedBy(f: Incoming): seq<byte> {
    if f.opcode == MORE then f.payload else []
  }

  /** The open text behind one more frame. */
  function TextWith(text: Option<seq<byte>>, f: Incoming): Option<seq<byte>> {
    if f.opcode == TEXT && !f.final then Some(f.payload)
    else if Transparent(f) && text.Some? then Some(text.value + CarriedBy(f))
    else None
  }

  lemma GathersMore(g: Gathering, text: Option<seq<byte>>, f: Incoming)
    requires Gathers(g, text) && f.opcode != CLOSE
    ensures Gathers(Step(g, f).0, TextWith(text, f))
  {
    JoinedOne(f.payload);
    if f.opcode == MORE { JoinedMore(g.parts, f.payload); }
    if text.Some? { assert text.value + [] == text.value; }
  }

  lemma OpenTextMore(fs: seq<Incoming>)
    requires fs != []
    ensures OpenText(fs) == TextWith(OpenText(fs[..|fs| - 1]), fs[|fs| - 1])
  {
    var n := |fs| - 1;
    var f, open := fs[n], OpenAt(fs[..n]);
    if f.opcode == TEXT && !f.final {
      assert OpenAt(fs) == Some(n) && fs[n + 1..] == [] && f.payload + [] == f.payload;
    } else if Transparent(f) && open.Some? {
      assert OpenAt(fs) == open;
      CarriedLast(fs, open.value);
      Grouped(fs[open.value].payload, Carried(fs[..n][open.value + 1..]), CarriedBy(f));
    }
  }

  lemma CarriedLast(fs: seq<Incoming>, j: nat)
    requires j + 1 < |fs|
    ensures var n := |fs| - 1; fs[..n][j] == fs[j] && Carried(fs[j + 1..]) == Carried(fs[..n][j + 1..]) + CarriedBy(fs[n])
  {
    var n := |fs| - 1;
    assert fs[j + 1..][..n - j - 1] == fs[..n][j + 1..];
  }

  lemma JoinedOne(part: seq<byte>)
    ensures Joined([part]) == part == part + []
  {
    JoinedMore([], part);
    assert [] + [part] == [part];
  }

  lemma {:induction false} EventsMore(g: Gathering, fs: seq<Incoming>, k: nat)
    requires k < |fs| && NoClose(fs[..k])
    ensures k < |Events(g, fs)| && Events(g, fs)[k] == Step(StateFrom(g, fs[..k]), fs[k]).1
    decreases k
  {
    if k > 0 {
      var (g1, e) := Step(g, fs[0]);
      assert fs[..k][0] == fs[0] && fs[..k][1..] == fs[1..][..k - 1];
      var rest := fs[1..][..k - 1];
      forall i | 0 <= i < |rest| ensures rest[i].opcode != CLOSE {
        assert fs[..k][i + 1].opcode != CLOSE;
      }
      EventsMore(g1, fs[1..], k - 1);
    }
  }

  function StateFrom(g: Gathering, fs: seq<Incoming>): Gathering
    decreases |fs|
  {
    if fs == [] then g else StateFrom(Step(g, fs[0]).0, fs[1..])
  }

  lemma {:induction false} StateFromMore(g: Gathering, fs: seq<Incoming>, f: Incoming)
    ensures StateFrom(g, fs + [f]) == Step(StateFrom(g, fs), f).0
    decreases |fs|
  {
    if fs == [] {
      assert fs + [f] == [f] && [f][1..] == [];
    } else {
      assert (fs + [f])[0] == fs[0] && (fs + [f])[1..] == fs[1..] + [f];
      StateFromMore(Step(g, fs[0]).0, fs[1..], f);
    }
  }

  lemma {:induction false} StateBothWays(fs: seq<Incoming>)
    ensures StateFrom(IDLE, fs) == StateAfter(fs)
  {
    if fs != [] {
      var n := |fs| - 1;
      StateBothWays(fs[..n]);
      StateFromMore(IDLE, fs[..n], fs[n]);
      assert fs[..n] + [fs[n]] == fs;
    }
  }

  /** The message that frame `k` completes: its own text, or the text open since frame `j` and its own part. */
  ghost predicate Completes(fs: seq<Incoming>, k: nat, m: seq<byte>) {
    && k < |fs| && fs[k].final
    && ((fs[k].opcode == TEXT && m == fs[k].payload)
        || (fs[k].opcode == MORE && exists j: nat :: Opens(fs, j, k) && m == fs[j].payload + Carried(fs[j + 1..k]) + fs[k].payload))
  }

  /**
   * What is delivered, for all sequences of frames: a frame behind no close delivers a message
   * exactly if it is a whole text, or the last fragment of one since whose first fragment there were
   * only pings, whole texts and further fragments.  Anything else, an unsolicited pong too, loses it.
   */
  lemma DeliveredIff(fs: seq<Incoming>, k: nat, m: seq<byte>)
    requires k < |fs| && NoClose(fs[..k])
    ensures k < |Events(IDLE, fs)|
    ensures Events(IDLE, fs)[k] == Delivered(m) <==> Completes(fs, k, m)
  {
    EventsMore(IDLE, fs, k);
    StateBothWays(fs[..k]);
    GatheringIs(fs[..k]);
    StepDelivers(StateAfter(fs[..k]), OpenText(fs[..k]), fs[k], m);
    OpenTextIs(fs, k, m, fs[k].payload);
  }

  lemma StepDelivers(g: Gathering, text: Option<seq<byte>>, f: Incoming, m: seq<byte>)
    requires Gathers(g, text)
    ensures Step(g, f).1 == Delivered(m) <==>
      f.final && ((f.opcode == TEXT && m == f.payload)
                  || (f.opcode == MORE && text.Some? && m == text.value + f.payload))
  {
    if f.opcode == MORE { JoinedMore(g.parts, f.payload); }
  }

  lemma OpenTextIs(fs: seq<Incoming>, k: nat, m: seq<byte>, last: seq<byte>)
    requires k <= |fs|
    ensures OpenText(fs[..k]).Some? && m == OpenText(fs[..k]).value + last <==>
      exists j: nat :: Opens(fs, j, k) && m == fs[j].payload + Carried(fs[j + 1..k]) + last
  {
    if j: nat :| Opens(fs, j, k) && m == fs[j].payload + Carried(fs[j + 1..k]) + last { OpenBefore(fs, j, k); }
    var open := OpenAt(fs[..k]);
    if open.Some? { OpenBefore(fs, open.value, k); }
  }

  lemma OpenBefore(fs: seq<Incoming>, j: nat, k: nat)
    requires k <= |fs|
    ensures Opens(fs, j, k) <==> OpenAt(fs[..k]) == Some(j)
    ensures Opens(fs, j, k) ==> fs[..k][j + 1..] == fs[j + 1..k] && fs[..k][j] == fs[j]
  {
    var pre := fs[..k];
    OpenAtIs(pre, j);
    if Opens(fs, j, k) {
      forall i | j < i < k ensures Transparent(pre[i]) { assert pre[i] == fs[i]; }
    }
    if Opens(pre, j, k) {
      forall i | j < i < k ensures Transparent(fs[i]) { assert pre[i] == fs[i]; }
    }
  }

  const PONG: Opcode := 10

  /** A pong between its fragments loses a text that is delivered without it. */
  lemma PongLosesText(a: seq<byte>, b: seq<byte>, pong: seq<byte>)
    ensures var first, last := Incoming(TEXT, false, a), Incoming(MORE, true, b);
      && Events(IDLE, [first, last]) == [Nothing, Delivered(a + b)]
      && Events(IDLE, [first, Incoming(PONG, true, pong), last]) == [Nothing, Nothing, Nothing]
  {
    var first, last, between := Incoming(TEXT, false, a), Incoming(MORE, true, b), Incoming(PONG, true, pong);
    JoinedMore([a], b);
    JoinedOne(a);
    assert [first, last][1..] == [last] && [last][1..] == [];
    assert [first, between, last][1..] == [between, last] && [between, last][1..] == [last];
    var open := Step(IDLE, first).0;
    assert Events(open, [last]) == [Delivered(a + b)];
    assert Events(Step(open, between).0, [last]) == [Nothing];
    assert Events(open, [between, last]) == [Nothing] + [Nothing];
  }

  /** Behind a close there is nothing any more. */
  lemma {:induction false} ClosedIsOver(g: Gathering, fs: seq<Incoming>, k: nat)
    requires k < |fs| && !NoClose(fs[..k])
    ensures |Events(g, fs)| <= k
    decreases |fs|
  {
    if fs[0].opcode != CLOSE {
      assert exists i :: 0 <= i < k && fs[..k][i].opcode == CLOSE;
      var i :| 0 <= i < k && fs[..k][i].opcode == CLOSE;
      var rest := fs[1..][..k - 1];
      assert 0 < i && fs[..k][i] == fs[i] == rest[i - 1];
      assert !NoClose(rest);
      ClosedIsOver(Step(g, fs[0]).0, fs[1..], k - 1);
    }
  }

  // ---------------------------------------------------------------------------------------
  // Chunks
  // ---------------------------------------------------------------------------------------

  /** A chunk row; the payload is absent if it is not a string. */
  datatype Chunk = Chunk(id: string, total: int, index: int, payload: Option<string>)

  datatype Entry = Entry(total: nat, parts: seq<Option<string>>, received: nat)

  type Buffers = map<string, Entry>

  const MAX_BUFFERS: nat := 128

  predicate Accepted(c: Chunk) {
    c.id != "" && 0 <= c.index < c.total && c.payload.Some?
  }

  function Filled(parts: seq<Option<string>>): nat {
    if parts == [] then 0 else (if parts[0].Some? then 1 else 0) + Filled(parts[1..])
  }

  function Assembled(parts: seq<Option<string>>): string {
    if parts == [] then "" else (if parts[0].Some? then parts[0].value else "") + Assembled(parts[1..])
  }

  /** `received` is the number of filled slots, and there is at least one empty one. */
  ghost predicate ValidEntry(e: Entry) {
    |e.parts| == e.total && e.received == Filled(e.parts) < e.total
  }

  ghost predicate ValidBuffers(bufs: Buffers) {
    && (forall id :: id in bufs ==> ValidEntry(bufs[id]))
    && |bufs| <= MAX_BUFFERS + 1
  }

  function Kept(bufs: Buffers): Buffers {
    if |bufs| > MAX_BUFFERS then map[] else bufs
  }

  function EntryFor(bufs: Buffers, c: Chunk): Entry
    requires Accepted(c)
  {
    if c.id in bufs && bufs[c.id].total == c.total then bufs[c.id]
    else Entry(c.total, seq(c.total, _ => None), 0)
  }

  /** The first payload for a slot stays. */
  function Put(e: Entry, c: Chunk): Entry
    requires Accepted(c) && |e.parts| == c.total
  {
    if e.parts[c.index].None? then Entry(e.total, e.parts[c.index := c.payload], e.received + 1) else e
  }

  /** The buffers after a chunk, and the text it completed. */
  function Store(bufs: Buffers, c: Chunk): (Buffers, Option<string>)
    requires ValidBuffers(bufs)
  {
    if !Accepted(c) then (bufs, None)
    else
      EntryForValid(bufs, c);
      var kept, e := Kept(bufs), Put(EntryFor(Kept(bufs), c), c);
      if e.received < c.total then (kept[c.id := e], None) else (kept - {c.id}, Some(Assembled(e.parts)))
  }

  lemma {:induction false} FilledNone(n: nat)
    ensures Filled(seq(n, _ => None)) == 0
  {
    if n > 0 {
      assert seq(n, _ => None)[1..] == seq<Option<string>>(n - 1, _ => None);
      FilledNone(n - 1);
    }
  }

  lemma {:induction false} FilledPut(parts: seq<Option<string>>, i: nat, x: string)
    requires i < |parts| && parts[i].None?
    ensures Filled(parts[i := Some(x)]) == Filled(parts) + 1
  {
    if i > 0 {
      assert parts[i := Some(x)][1..] == parts[1..][i - 1 := Some(x)];
      FilledPut(parts[1..], i - 1, x);
    } else {
      assert parts[0 := Some(x)][1..] == parts[1..];
    }
  }

  /** As many slots are filled as there are exactly when each one is. */
  lemma {:induction false} FilledAll(parts: seq<Option<string>>)
    ensures Filled(parts) <= |parts|
    ensures Filled(parts) == |parts| <==> forall i :: 0 <= i < |parts| ==> parts[i].Some?
  {
    if parts != [] {
      FilledAll(parts[1..]);
      assert (forall i :: 0 <= i < |parts| ==> parts[i].Some?) <==>
        parts[0].Some? && forall i :: 0 <= i < |parts[1..]| ==> parts[1..][i].Some? by {
        if parts[0].Some? && forall i :: 0 <= i < |parts[1..]| ==> parts[1..][i].Some? {
          forall i | 0 <= i < |parts| ensures parts[i].Some? {
            if i > 0 { assert parts[1..][i - 1].Some?; }
          }
        }
      }
    }
  }

  lemma EntryForValid(bufs: Buffers, c: Chunk)
    requires ValidBuffers(bufs) && Accepted(c)
    ensures var e := EntryFor(Kept(bufs), c);
      |e.parts| == e.total == c.total && e.received == Filled(e.parts)
  {
    FilledNone(c.total);
  }

  lemma PutValid(e: Entry, c: Chunk)
    requires Accepted(c) && |e.parts| == e.total == c.total && e.received == Filled(e.parts)
    ensures var e' := Put(e, c);
      && |e'.parts| == e'.total == c.total && e'.received == Filled(e'.parts) <= c.total
  {
    if e.parts[c.index].None? { FilledPut(e.parts, c.index, c.payload.value); }
    FilledAll(Put(e, c).parts);
  }

  /** What holds of every run: slots are counted right, and the buffers are bounded. */
  lemma StoreKeepsValid(bufs: Buffers, c: Chunk)
    requires ValidBuffers(bufs)
    ensures ValidBuffers(Store(bufs, c).0)
  {
    if Accepted(c) {
      var kept := Kept(bufs);
      EntryForValid(bufs, c);
      PutValid(EntryFor(kept, c), c);
      var e := Put(EntryFor(kept, c), c);
      assert (kept[c.id := e]).Keys == kept.Keys + {c.id};
      assert (kept - {c.id}).Keys == kept.Keys - {c.id};
      assert |kept.Keys - {c.id}| <= |kept.Keys|;
    }
  }

  class ChunkReader {
    var chunkBuffers: Buffers

    ghost predicate Valid()
      reads this
    {
      ValidBuffers(chunkBuffers)
    }

    constructor ()
      ensures Valid() && chunkBuffers == map[]
    {
      chunkBuffers := map[];
    }

    /** The text that the chunk completes, if any. */
    method Record(c: Chunk) returns (text: Option<string>)
      requires Valid()
      modifies this
      ensures Valid() && (chunkBuffers, text) == Store(old(chunkBuffers), c)
    {
      StoreKeepsValid(chunkBuffers, c);
      if c.id == "" || c.total <= 0 || c.index < 0 || c.index >= c.total || c.payload.None? {
        return None;
      }
      EntryForValid(chunkBuffers, c);
      PutValid(EntryFor(Kept(chunkBuffers), c), c);
      if |chunkBuffers| > 128 {
        chunkBuffers := map[];
      }
      var entry;
      if c.id !in chunkBuffers || chunkBuffers[c.id].total != c.total {
        entry := Entry(c.total, seq(c.total, _ => None), 0);
      } else {
        entry := chunkBuffers[c.id];
      }
      if entry.parts[c.index].None? {
        entry := Entry(c.total, entry.parts[c.index := c.payload], entry.received + 1);
      }
      if entry.received < c.total {
        chunkBuffers := chunkBuffers[c.id := entry];
        return None;
      }
      FilledAll(entry.parts);
      assert forall part :: part in entry.parts ==> part.Some?;
      chunkBuffers := chunkBuffers - {c.id};
      text := Some(Assembled(entry.parts));
    }
  }

  // -- Runs --

  function Next(bufs: Buffers, c: Chunk): (r: Buffers)
    requires ValidBuffers(bufs)
    ensures ValidBuffers(r)
  {
    StoreKeepsValid(bufs, c);
    Store(bufs, c).0
  }

  /** The text that a chunk completes under the given identifier. */
  function Yield(bufs: Buffers, c: Chunk, id: string): seq<string>
    requires ValidBuffers(bufs)
  {
    if c.id == id && Store(bufs, c).1.Some? then [Store(bufs, c).1.value] else []
  }

  function After(bufs: Buffers, cs: seq<Chunk>): (r: Buffers)
    requires ValidBuffers(bufs)
    ensures ValidBuffers(r)
    decreases |cs|
  {
    if cs == [] then bufs else After(Next(bufs, cs[0]), cs[1..])
  }

  /** The texts completed under the given identifier. */
  function Completed(bufs: Buffers, cs: seq<Chunk>, id: string): seq<string>
    requires ValidBuffers(bufs)
    decreases |cs|
  {
    if cs == [] then [] else Yield(bufs, cs[0], id) + Completed(Next(bufs, cs[0]), cs[1..], id)
  }

  /** The buffers are never full when a chunk comes, so that none of them is thrown away. */
  ghost predicate NeverCleared(bufs: Buffers, cs: seq<Chunk>)
    requires ValidBuffers(bufs)
    decreases |cs|
  {
    cs == [] || (|bufs| <= MAX_BUFFERS && NeverCleared(Next(bufs, cs[0]), cs[1..]))
  }

  function IdsOf(cs: seq<Chunk>): set<string> {
    set c | c in cs :: c.id
  }

  /** That is so if there are few identifiers around. */
  lemma {:induction false} FewIdsNeverCleared(bufs: Buffers, cs: seq<Chunk>, ids: set<string>)
    requires ValidBuffers(bufs) && bufs.Keys <= ids && IdsOf(cs) <= ids && |ids| <= MAX_BUFFERS
    ensures NeverCleared(bufs, cs)
    decreases |cs|
  {
    if cs != [] {
      SubsetAtMost(bufs.Keys, ids);
      StoreKeepsValid(bufs, cs[0]);
      assert cs[0] in cs && cs[0].id in IdsOf(cs);
      forall id | id in IdsOf(cs[1..]) ensures id in ids {
        var c :| c in cs[1..] && c.id == id;
        assert c in cs && c.id in IdsOf(cs);
      }
      FewIdsNeverCleared(Next(bufs, cs[0]), cs[1..], ids);
    }
  }

  /** The first of two chunks of each message, and one more chunk. */
  function FirstHalves(ids: seq<string>, last: Chunk): seq<Chunk> {
    if ids == [] then [last] else [Chunk(ids[0], 2, 0, Some(""))] + FirstHalves(ids[1..], last)
  }

  lemma {:induction false} Crowded(bufs: Buffers, ids: seq<string>, last: Chunk)
    requires ValidBuffers(bufs) && |bufs| + |ids| > MAX_BUFFERS
    requires forall i :: 0 <= i < |ids| ==> ids[i] != "" && ids[i] !in bufs
    requires forall i, j :: 0 <= i < j < |ids| ==> ids[i] != ids[j]
    ensures !NeverCleared(bufs, FirstHalves(ids, last))
    decreases |ids|
  {
    if ids != [] && |bufs| <= MAX_BUFFERS {
      var c := Chunk(ids[0], 2, 0, Some(""));
      HalfStays(bufs, c);
      assert FirstHalves(ids, last)[1..] == FirstHalves(ids[1..], last);
      Crowded(Next(bufs, c), ids[1..], last);
    }
  }

  lemma HalfStays(bufs: Buffers, c: Chunk)
    requires ValidBuffers(bufs) && |bufs| <= MAX_BUFFERS && c.id !in bufs
    requires Accepted(c) && c.total == 2
    ensures Next(bufs, c).Keys == bufs.Keys + {c.id} && |Next(bufs, c)| == |bufs| + 1
  {
    EntryForValid(bufs, c);
    FilledNone(2);
    var empty := EntryFor(bufs, c);
    FilledPut(empty.parts, c.index, c.payload.value);
    assert Next(bufs, c) == bufs[c.id := Put(empty, c)];
    assert |Next(bufs, c).Keys| == |bufs.Keys| + 1;
  }

  lemma {:induction false} IdsOfHalves(ids: seq<string>, last: Chunk)
    ensures IdsOf(FirstHalves(ids, last)) == (set id | id in ids) + {last.id}
  {
    if ids != [] {
      IdsOfHalves(ids[1..], last);
      var cs := FirstHalves(ids, last);
      assert cs[0] in cs && cs[0].id == ids[0];
      assert forall c :: c in cs <==> c == cs[0] || c in FirstHalves(ids[1..], last);
      assert IdsOf(cs) == {ids[0]} + IdsOf(FirstHalves(ids[1..], last));
      assert (set id | id in ids) == {ids[0]} + set id | id in ids[1..];
    } else {
      assert last in FirstHalves(ids, last);
    }
  }

  ghost predicate IdsSuffice(ids: set<string>) {
    forall cs :: IdsOf(cs) <= ids ==> NeverCleared(map[], cs)
  }

  /** 128 identifiers are the most with which no buffer is ever thrown away, whatever comes. */
  lemma IdsSufficeIff(ids: set<string>)
    requires "" !in ids
    ensures IdsSuffice(ids) <==> |ids| <= MAX_BUFFERS
  {
    if |ids| <= MAX_BUFFERS {
      forall cs | IdsOf(cs) <= ids ensures NeverCleared(map[], cs) { FewIdsNeverCleared(map[], cs, ids); }
    } else {
      var order := Enumerate(ids);
      var last := Chunk(order[0], 2, 1, Some(""));
      Crowded(map[], order, last);
      IdsOfHalves(order, last);
      assert IdsOf(FirstHalves(order, last)) <= ids;
    }
  }

  /** The chunks under an identifier are all cut from the same text. */
  ghost predicate CutFrom(cs: seq<Chunk>, id: string, texts: seq<string>) {
    forall c :: c in cs && c.id == id && Accepted(c) ==> c.total == |texts| && c.payload.value == texts[c.index]
  }

  function Seen(cs: seq<Chunk>, id: string): set<int> {
    set c | c in cs && c.id == id && Accepted(c) :: c.index
  }

  /** The slots filled are those seen, each with its piece of the text. */
  ghost predicate Filling(e: Entry, texts: seq<string>, seen: set<int>) {
    && e.total == |texts| == |e.parts|
    && (forall i :: i in seen ==> 0 <= i < |texts|)
    && forall i :: 0 <= i < |texts| ==> e.parts[i] == if i in seen then Some(texts[i]) else None
  }

  ghost predicate Progress(bufs: Buffers, id: string, texts: seq<string>, seen: set<int>) {
    if id in bufs then Filling(bufs[id], texts, seen) else seen == {}
  }

  ghost predicate AllSeen(seen: set<int>, n: nat) {
    forall i :: 0 <= i < n ==> i in seen
  }

  function Text(texts: seq<string>): string {
    if texts == [] then "" else texts[0] + Text(texts[1..])
  }

  lemma {:induction false} AssembledText(parts: seq<Option<string>>, texts: seq<string>)
    requires |parts| == |texts| && forall i :: 0 <= i < |texts| ==> parts[i] == Some(texts[i])
    ensures Assembled(parts) == Text(texts)
  {
    if parts != [] { AssembledText(parts[1..], texts[1..]); }
  }

  /** One more chunk: its slot is filled, and with the last slot the text is complete. */
  lemma ProgressStep(bufs: Buffers, c: Chunk, texts: seq<string>, seen: set<int>)
    requires ValidBuffers(bufs) && |bufs| <= MAX_BUFFERS && Progress(bufs, c.id, texts, seen)
    requires Accepted(c) && c.total == |texts| && c.payload.value == texts[c.index]
    ensures if AllSeen(seen + {c.index}, |texts|)
      then Yield(bufs, c, c.id) == [Text(texts)] && c.id !in Next(bufs, c)
      else Yield(bufs, c, c.id) == [] && Progress(Next(bufs, c), c.id, texts, seen + {c.index})
  {
    StoreIs(bufs, c);
    EntryFilling(bufs, c, texts, seen);
    PutFilling(EntryFor(bufs, c), c, texts, seen);
    FullIff(Put(EntryFor(bufs, c), c), texts, seen + {c.index});
  }

  lemma StoreIs(bufs: Buffers, c: Chunk)
    requires ValidBuffers(bufs) && |bufs| <= MAX_BUFFERS && Accepted(c)
    ensures |EntryFor(bufs, c).parts| == c.total
    ensures var e := Put(EntryFor(bufs, c), c);
      && e.received == Filled(e.parts) <= c.total
      && Store(bufs, c) == if e.received < c.total then (bufs[c.id := e], None) else (bufs - {c.id}, Some(Assembled(e.parts)))
  {
    EntryForValid(bufs, c);
    PutValid(EntryFor(bufs, c), c);
  }

  lemma FullIff(e: Entry, texts: seq<string>, seen: set<int>)
    requires Filling(e, texts, seen)
    ensures Filled(e.parts) == |texts| <==> AllSeen(seen, |texts|)
    ensures AllSeen(seen, |texts|) ==> Assembled(e.parts) == Text(texts)
  {
    FilledAll(e.parts);
    if AllSeen(seen, |texts|) {
      AssembledText(e.parts, texts);
    } else {
      var i :| 0 <= i < |texts| && i !in seen;
      assert e.parts[i].None?;
    }
  }

  lemma EntryFilling(bufs: Buffers, c: Chunk, texts: seq<string>, seen: set<int>)
    requires Progress(bufs, c.id, texts, seen) && Accepted(c) && c.total == |texts|
    ensures Filling(EntryFor(bufs, c), texts, seen)
  {
  }

  lemma PutFilling(e: Entry, c: Chunk, texts: seq<string>, seen: set<int>)
    requires Filling(e, texts, seen)
    requires Accepted(c) && c.total == |texts| && c.payload.value == texts[c.index]
    ensures Filling(Put(e, c), texts, seen + {c.index})
  {
  }

  /** Chunks of other messages, and malformed ones, leave a message alone. */
  lemma ProgressAside(bufs: Buffers, c: Chunk, id: string, texts: seq<string>, seen: set<int>)
    requires ValidBuffers(bufs) && |bufs| <= MAX_BUFFERS && Progress(bufs, id, texts, seen)
    requires !Accepted(c) || c.id != id
    ensures Progress(Next(bufs, c), id, texts, seen) && Yield(bufs, c, id) == []
  {
  }

  lemma SeenFirst(cs: seq<Chunk>, id: string, seen: set<int>)
    requires cs != []
    ensures seen + Seen(cs, id) ==
      (if cs[0].id == id && Accepted(cs[0]) then seen + {cs[0].index} else seen) + Seen(cs[1..], id)
  {
    assert Seen(cs, id) == (if cs[0].id == id && Accepted(cs[0]) then {cs[0].index} else {}) + Seen(cs[1..], id);
  }

  lemma CutFirst(cs: seq<Chunk>, id: string, texts: seq<string>)
    requires cs != [] && CutFrom(cs, id, texts)
    ensures CutFrom(cs[1..], id, texts)
    ensures cs[0].id == id && Accepted(cs[0]) ==> cs[0].total == |texts| && cs[0].payload.value == texts[cs[0].index]
  {
    assert cs[0] in cs && forall d :: d in cs[1..] ==> d in cs;
  }

  lemma MoreSeen(seen: set<int>, more: set<int>, n: nat)
    requires !AllSeen(seen + more, n)
    ensures !AllSeen(seen, n)
  {
  }

  /** The first chunk, of this message or another, with a slot still to come. */
  lemma FirstChunk(bufs: Buffers, cs: seq<Chunk>, id: string, texts: seq<string>, seen: set<int>) returns (seen1: set<int>)
    requires ValidBuffers(bufs) && cs != [] && |bufs| <= MAX_BUFFERS && CutFrom(cs, id, texts)
    requires Progress(bufs, id, texts, seen) && !AllSeen(seen + Seen(cs, id), |texts|)
    ensures Yield(bufs, cs[0], id) == [] && Progress(Next(bufs, cs[0]), id, texts, seen1)
    ensures CutFrom(cs[1..], id, texts) && seen + Seen(cs, id) == seen1 + Seen(cs[1..], id)
  {
    var c := cs[0];
    SeenFirst(cs, id, seen);
    CutFirst(cs, id, texts);
    if c.id == id && Accepted(c) {
      seen1 := seen + {c.index};
      MoreSeen(seen1, Seen(cs[1..], id), |texts|);
      ProgressStep(bufs, c, texts, seen);
    } else {
      seen1 := seen;
      ProgressAside(bufs, c, id, texts, seen);
    }
  }

  /** Until every slot has been seen nothing is completed, and the slots seen add up. */
  lemma {:induction false} Accumulates(bufs: Buffers, cs: seq<Chunk>, id: string, texts: seq<string>, seen: set<int>)
    requires ValidBuffers(bufs) && NeverCleared(bufs, cs) && CutFrom(cs, id, texts)
    requires Progress(bufs, id, texts, seen) && !AllSeen(seen + Seen(cs, id), |texts|)
    ensures Completed(bufs, cs, id) == []
    ensures Progress(After(bufs, cs), id, texts, seen + Seen(cs, id))
    decreases |cs|
  {
    if cs == [] {
      assert seen + Seen(cs, id) == seen;
    } else {
      var seen1 := FirstChunk(bufs, cs, id, texts, seen);
      Accumulates(Next(bufs, cs[0]), cs[1..], id, texts, seen1);
    }
  }

  lemma {:induction false} AfterMore(bufs: Buffers, cs: seq<Chunk>, c: Chunk)
    requires ValidBuffers(bufs) && NeverCleared(bufs, cs + [c])
    ensures NeverCleared(bufs, cs) && |After(bufs, cs)| <= MAX_BUFFERS
    ensures After(bufs, cs + [c]) == Next(After(bufs, cs), c)
    decreases |cs|
  {
    var all := cs + [c];
    if cs == [] {
      assert all[1..] == [];
    } else {
      assert all[0] == cs[0] && all[1..] == cs[1..] + [c];
      AfterMore(Next(bufs, cs[0]), cs[1..], c);
    }
  }

  lemma {:induction false} CompletedMore(bufs: Buffers, cs: seq<Chunk>, c: Chunk, id: string)
    requires ValidBuffers(bufs)
    ensures Completed(bufs, cs + [c], id) == Completed(bufs, cs, id) + Yield(After(bufs, cs), c, id)
    decreases |cs|
  {
    var all := cs + [c];
    if cs == [] {
      assert all[1..] == [];
    } else {
      assert all[0] == cs[0] && all[1..] == cs[1..] + [c];
      var bufs1 := Next(bufs, cs[0]);
      CompletedMore(bufs1, cs[1..], c, id);
      Grouped(Yield(bufs, cs[0], id), Completed(bufs1, cs[1..], id), Yield(After(bufs1, cs[1..]), c, id));
    }
  }

  /**
   * A message in chunks is put together, in the order of their indices and once, when the last slot
   * is filled and not before, whatever the order of arrival, the duplicates, and the chunks of
   * other messages in between.
   */
  lemma ChunkedMessage(bufs: Buffers, cs: seq<Chunk>, last: Chunk, texts: seq<string>)
    requires ValidBuffers(bufs) && NeverCleared(bufs, cs + [last])
    requires last.id !in bufs && Accepted(last) && CutFrom(cs + [last], last.id, texts)
    requires !AllSeen(Seen(cs, last.id), |texts|)
    ensures Completed(bufs, cs + [last], last.id) ==
      if AllSeen(Seen(cs + [last], last.id), |texts|) then [Text(texts)] else []
    ensures AllSeen(Seen(cs + [last], last.id), |texts|) ==> last.id !in After(bufs, cs + [last])
  {
    var id := last.id;
    AfterMore(bufs, cs, last);
    CompletedMore(bufs, cs, last, id);
    SeenLast(cs, last, texts);
    assert {} + Seen(cs, id) == Seen(cs, id);
    Accumulates(bufs, cs, id, texts, {});
    ProgressStep(After(bufs, cs), last, texts, Seen(cs, id));
  }

  lemma SeenLast(cs: seq<Chunk>, last: Chunk, texts: seq<string>)
    requires Accepted(last) && CutFrom(cs + [last], last.id, texts)
    ensures Seen(cs + [last], last.id) == Seen(cs, last.id) + {last.index}
    ensures CutFrom(cs, last.id, texts) && last.total == |texts| && last.payload.value == texts[last.index]
  {
  }

  /** With too many buffers, or when a message changes its number of chunks, what had come is lost. */
  lemma ResetForgets(bufs: Buffers, c: Chunk)
    requires ValidBuffers(bufs) && Accepted(c) && c.total > 1
    requires |bufs| > MAX_BUFFERS || (c.id in bufs && bufs[c.id].total != c.total)
    ensures var (after, text) := Store(bufs, c);
      && text == None && c.id in after && after[c.id].received == 1
      && (|bufs| > MAX_BUFFERS ==> after.Keys == {c.id})
  {
  }
}
