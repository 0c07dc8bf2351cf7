/**
 Idempotent chat turns: a client request id is claimed, and the claim is committed in the
 transaction that writes the question and the answer, or finished without one.  Times are
 milliseconds; what is stored is rounded down to the second.  Any number of workers may be at
 work at once.  A transaction begins with its first write: what was read before it is read in a
 step of its own, and may be out of date by the time of the write.
 */
module ChatRequests {
  import opened Wrappers

  const STALE_IN_PROGRESS := 15 * 60 * 1000
  const RETENTION := 7 * 24 * 3600 * 1000
  const PURGE_INTERVAL := 3600 * 1000

  datatype Key = Key(caseId: nat, request: string)
  datatype Status = InProgress | Committed | Failed | Cancelled
  datatype Payload = Payload(conversation: nat, message: nat, answer: string)
  datatype Row = Row(status: Status, message: Option<nat>, result: Option<Payload>, updatedAt: int)

  /** A question and its answer; its position is the answer's message id. `filed`: its request row was there to update. */
  datatype Turn = Turn(conversation: nat, answer: string, run: Option<string>, key: Option<Key>, filed: bool, at: int)
  datatype Conversation = Conversation(caseId: nat, archived: bool)

  datatype Chat = Chat(rows: map<Key, Row>, lastPurge: int, conversations: seq<Conversation>, turns: seq<Turn>)

  /** What one call of `record_turn` is asked to write; `claim` is the worker's, on the streaming path. */
  datatype Entry = Entry(caseId: nat, knownKind: bool, blank: bool, disconnected: bool,
                         conversation: Option<nat>, run: Option<string>, answer: string)

  datatype Reply = Claimed | Replay(result: Payload, message: Option<nat>) | Busy
  datatype Recorded = Wrote(message: nat) | AlreadyThere(message: nat) | Cleared | Refused

  /** A `begin` between its read and its write: when it looked, whether it swept, and whether it found a row. */
  datatype Reader = Reader(key: Key, asked: int, look: int, sweeps: bool, found: bool, used: bool)

  function Whole(t: int): int {
    t - t % 1000
  }

  predicate Stale(stamp: int, now: int) {
    now - stamp > STALE_IN_PROGRESS
  }

  // ------------------------------------------------------------------ begin

  function Swept(rows: map<Key, Row>, look: int): map<Key, Row> {
    map k | k in rows && !(rows[k].updatedAt < Whole(look - RETENTION)) :: rows[k]
  }

  predicate Sweeps(c: Chat, monotonic: int) {
    monotonic - c.lastPurge >= PURGE_INTERVAL
  }

  /** The rows as one `begin` sees them: without those it has itself swept. */
  function View(rows: map<Key, Row>, sweeps: bool, look: int): map<Key, Row> {
    if sweeps then Swept(rows, look) else rows
  }

  /** The stored payload, or the empty object. */
  function Stored(row: Row): Payload {
    if row.result.Some? then row.result.value else Payload(0, 0, "")
  }

  function ReplyTo(rows: map<Key, Row>, k: Key, now: int): Reply {
    if k !in rows then Claimed
    else match rows[k].status
      case Committed => Replay(Stored(rows[k]), rows[k].message)
      case InProgress => if Stale(rows[k].updatedAt, now) then Claimed else Busy
      case _ => Claimed
  }

  function Answered(c: Chat, k: Key, look: int, monotonic: int): Reply {
    ReplyTo(View(c.rows, Sweeps(c, monotonic), look), k, look)
  }

  /** The read: a replay ends the transaction and keeps its sweep, a refusal rolls it back, a claim has yet to be written. */
  function Look(c: Chat, k: Key, look: int, monotonic: int): Chat {
    var purge := if Sweeps(c, monotonic) then monotonic else c.lastPurge;
    c.(lastPurge := purge,
       rows := if Answered(c, k, look, monotonic).Replay? then View(c.rows, Sweeps(c, monotonic), look) else c.rows)
  }

  function ReaderOf(c: Chat, k: Key, asked: int, look: int, monotonic: int): Reader {
    var sweeps := Sweeps(c, monotonic);
    Reader(k, asked, look, sweeps, k in View(c.rows, sweeps, look), false)
  }

  function FreshRow(r: Reader): Row {
    Row(InProgress, None, None, Whole(r.asked))
  }

  /** A row inserted in the meantime refuses the insert; the update asks nothing of the row it overwrites. */
  predicate Collides(c: Chat, r: Reader) {
    !r.found && r.key in View(c.rows, r.sweeps, r.look)
  }

  /** The write of a claim, together with the sweep. */
  function Take(c: Chat, r: Reader): Chat {
    var rows := View(c.rows, r.sweeps, r.look);
    if Collides(c, r) then c
    else if r.found && r.key !in rows then c.(rows := rows)
    else c.(rows := rows[r.key := FreshRow(r)])
  }

  // ------------------------------------------------------------------ record_turn, finish

  predicate RunIn(run: Option<string>, turns: seq<Turn>) {
    run.Some? && exists i | 0 <= i < |turns| :: turns[i].run == run
  }

  predicate Refuses(c: Chat, e: Entry) {
    || !e.knownKind || e.blank || e.disconnected
    || (e.conversation.Some?
        && (e.conversation.value >= |c.conversations|
            || c.conversations[e.conversation.value].caseId != e.caseId
            || c.conversations[e.conversation.value].archived))
  }

  function Opened(c: Chat, e: Entry): Chat {
    if e.conversation.Some? then c
    else c.(conversations := c.conversations + [Conversation(e.caseId, false)])
  }

  function Place(c: Chat, e: Entry): nat {
    if e.conversation.Some? then e.conversation.value else |c.conversations|
  }

  function NewTurn(c: Chat, e: Entry, key: Option<Key>, now: int): Turn {
    Turn(Place(c, e), e.answer, e.run, key, key.Some? && key.value in c.rows, now)
  }

  function PayloadOf(t: Turn, message: nat): Payload {
    Payload(t.conversation, message, t.answer)
  }

  /** The row that `commit` leaves behind for the turn at this position. */
  function CommittedRow(t: Turn, message: nat): Row {
    Row(Committed, Some(message), Some(PayloadOf(t, message)), Whole(t.at))
  }

  function Write(c: Chat, e: Entry, key: Option<Key>, now: int): Chat {
    var t := NewTurn(c, e, key, now);
    var rows := if t.filed then c.rows[key.value := CommittedRow(t, |c.turns|)] else c.rows;
    Opened(c, e).(turns := c.turns + [t], rows := rows)
  }

  /**
   The write of a turn.  A new conversation is inserted first, so everything after it is checked
   in the same transaction; a given one was checked before, and only the unique run id is left to
   refuse the write.
   */
  function Record(c: Chat, e: Entry, key: Option<Key>, now: int): Chat {
    if e.conversation.None? && Refuses(c, e) then c
    else if RunIn(e.run, c.turns) then Opened(c, e)
    else Write(c, e, key, now)
  }

  function Finish(c: Chat, k: Key, status: Status, now: int): Chat {
    if status in {Failed, Cancelled} && k in c.rows && c.rows[k].status == InProgress
    then c.(rows := c.rows[k := c.rows[k].(status := status, updatedAt := Whole(now))])
    else c
  }

  // ------------------------------------------------------------------ the store

  /** The tables and the module's purge clock; each method is what happens without another worker coming between. */
  class Store {
    var rows: map<Key, Row>
    var lastPurge: int
    var conversations: seq<Conversation>
    var turns: seq<Turn>

    ghost function Value(): Chat
      reads this
    {
      Chat(rows, lastPurge, conversations, turns)
    }

    /** The first half of `begin`. */
    method LookAt(k: Key, asked: int, look: int, monotonic: int) returns (reply: Reply, reader: Reader)
      modifies this`rows, this`lastPurge
      ensures reply == Answered(old(Value()), k, look, monotonic)
      ensures Value() == Look(old(Value()), k, look, monotonic)
      ensures reader == ReaderOf(old(Value()), k, asked, look, monotonic)
    {
      var kept := rows;
      var sweeps := MaybePurge(look, monotonic);
      reader := Reader(k, asked, look, sweeps, k in rows, false);
      if k !in rows {
        rows := kept;
        return Claimed, reader;
      }
      var row := rows[k];
      if row.status == Committed {
        return Replay(Stored(row), row.message), reader;
      }
      rows := kept;
      if row.status == InProgress && !(look - row.updatedAt > STALE_IN_PROGRESS) {
        return Busy, reader;
      }
      return Claimed, reader;
    }

    /** The second half: the insert of a row that was not there, or the update of one that was. */
    method TakeClaim(r: Reader) returns (granted: bool)
      modifies this`rows
      ensures granted == !Collides(old(Value()), r)
      ensures Value() == Take(old(Value()), r)
    {
      var swept := if r.sweeps then map k | k in rows && !(rows[k].updatedAt < Whole(r.look - RETENTION)) :: rows[k] else rows;
      if !r.found {
        if r.key in swept {
          return false;
        }
        rows := swept[r.key := Row(InProgress, None, None, Whole(r.asked))];
        return true;
      }
      rows := swept;
      if r.key in rows {
        rows := rows[r.key := Row(InProgress, None, None, Whole(r.asked))];
      }
      return true;
    }

    method MaybePurge(look: int, monotonic: int) returns (swept: bool)
      modifies this`rows, this`lastPurge
      ensures swept == Sweeps(old(Value()), monotonic)
      ensures rows == View(old(rows), swept, look)
      ensures lastPurge == if swept then monotonic else old(lastPurge)
    {
      if monotonic - lastPurge < PURGE_INTERVAL {
        return false;
      }
      lastPurge := monotonic;
      var horizon := Whole(look - RETENTION);
      rows := map k | k in rows && !(rows[k].updatedAt < horizon) :: rows[k];
      assert rows == Swept(old(rows), look);
      return true;
    }

    /** What is read before a turn is written to a given conversation. */
    method CheckTurn(e: Entry) returns (r: Recorded)
      ensures r.Refused? <==> Refuses(Value(), e)
      ensures r.AlreadyThere? <==> !Refuses(Value(), e) && RunIn(e.run, turns)
      ensures r.AlreadyThere? ==> r.message < |turns| && turns[r.message].run == e.run
      ensures !r.Wrote?
    {
      if !e.knownKind || e.blank || e.disconnected {
        return Refused;
      }
      if e.conversation.Some? {
        var place := e.conversation.value;
        if place >= |conversations| || conversations[place].caseId != e.caseId || conversations[place].archived {
          return Refused;
        }
      }
      if e.run.Some? {
        var at := FindRun(e.run);
        if at < |turns| {
          return AlreadyThere(at);
        }
      }
      return Cleared;
    }

    /** The transaction that writes the turn and files it. */
    method WriteTurn(e: Entry, key: Option<Key>, now: int) returns (r: Recorded)
      modifies this
      ensures Value() == Record(old(Value()), e, key, now)
      ensures r.Wrote? <==> |turns| == |old(turns)| + 1
      ensures r.Wrote? ==> r.message == |old(turns)|
      ensures r.AlreadyThere? ==> r.message < |turns| && turns[r.message].run == e.run
    {
      var place := |conversations|;
      if e.conversation.Some? {
        place := e.conversation.value;
      } else {
        if !e.knownKind || e.blank || e.disconnected {
          return Refused;
        }
        conversations := conversations + [Conversation(e.caseId, false)];
      }
      if e.run.Some? {
        var at := FindRun(e.run);
        if at < |turns| {
          return if e.conversation.Some? then Refused else AlreadyThere(at);
        }
      }
      var message := |turns|;
      var filed := key.Some? && key.value in rows;
      var t := Turn(place, e.answer, e.run, key, filed, now);
      turns := turns + [t];
      if filed {
        rows := rows[key.value := Row(Committed, Some(message), Some(Payload(place, message, e.answer)), Whole(now))];
      }
      return Wrote(message);
    }

    method FindRun(run: Option<string>) returns (at: nat)
      requires run.Some?
      ensures at <= |turns| && (at < |turns| ==> turns[at].run == run)
      ensures RunIn(run, turns) <==> at < |turns|
    {
      at := 0;
      while at < |turns| && turns[at].run != run
        invariant at <= |turns| && forall i | 0 <= i < at :: turns[i].run != run
      {
        at := at + 1;
      }
    }

    /** Only a failure or a cancellation can be recorded here, and only over a request in progress. */
    method FinishRequest(k: Key, status: Status, now: int) returns (known: bool)
      modifies this`rows
      ensures known <==> status == Failed || status == Cancelled
      ensures Value() == Finish(old(Value()), k, status, now)
    {
      known := status == Failed || status == Cancelled;
      if known && k in rows && rows[k].status == InProgress {
        rows := rows[k := rows[k].(status := status, updatedAt := Whole(now))];
      }
    }

    /** Only a committed request is ever reported with a payload. */
    method Lookup(k: Key) returns (found: Option<(Status, Option<Payload>)>)
      ensures found.None? <==> k !in rows
      ensures found.Some? ==> found.value.0 == rows[k].status
      ensures found.Some? && rows[k].status != Committed ==> found.value.1.None?
      ensures found.Some? && rows[k].status == Committed && rows[k].result.Some? ==> found.value.1 == rows[k].result
    {
      if k !in rows {
        return None;
      }
      var row := rows[k];
      return Some((row.status, if row.status == Committed then Some(Stored(row)) else None));
    }
  }

  // ------------------------------------------------------------------ runs of many workers

  /** A worker's claim: it may still write, has written, or was finished. `stamp` is what its row stored. */
  datatype Stage = Working | Written | Closed
  datatype Claim = Claim(key: Key, stamp: int, stage: Stage)

  /** `cleared` holds the entries for a given conversation that have passed their check. */
  datatype World = World(chat: Chat, readers: seq<Reader>, claims: seq<Claim>, cleared: set<Entry>, clock: int)

  datatype Action =
    | Ask(key: Key, asked: int, now: int, monotonic: int)
    | Proceed(reader: nat, now: int)
    | Check(entry: Entry, now: int)
    | Answer(claim: nat, entry: Entry, now: int)
    | GiveUp(claim: nat, status: Status, now: int)
    | Other(entry: Entry, now: int)
    | Archive(conversation: nat, now: int)

  const Start := World(Chat(map[], 0, [], []), [], [], {}, 0)

  predicate MayWrite(w: World, e: Entry) {
    e.conversation.Some? ==> e in w.cleared
  }

  /** A worker answers at most once and never after it gave up; nothing else is promised about it. */
  predicate Allowed(w: World, a: Action) {
    && w.clock <= a.now
    && match a
       case Ask(_, asked, now, _) => 0 <= asked <= now
       case Proceed(r, _) => r < |w.readers| && !w.readers[r].used
       case Check(_, _) => true
       case Answer(c, e, _) => c < |w.claims| && w.claims[c].stage == Working && MayWrite(w, e)
       case GiveUp(c, status, _) => c < |w.claims| && w.claims[c].stage != Closed && status in {Failed, Cancelled}
       case Other(e, _) => MayWrite(w, e)
       case Archive(i, _) => i < |w.chat.conversations|
  }

  /** The worker acts before the stamp stored for its claim is stale. */
  predicate Timely(w: World, a: Action)
    requires Allowed(w, a)
  {
    match a
    case Answer(c, _, now) => !Stale(w.claims[c].stamp, now)
    case GiveUp(c, _, now) => !Stale(w.claims[c].stamp, now)
    case _ => true
  }

  function Do(w: World, a: Action): World
    requires Allowed(w, a)
  {
    match a
    case Ask(k, asked, now, monotonic) =>
      var claims := Answered(w.chat, k, now, monotonic).Claimed?;
      w.(chat := Look(w.chat, k, now, monotonic), clock := now,
         readers := if claims then w.readers + [ReaderOf(w.chat, k, asked, now, monotonic)] else w.readers)
    case Proceed(i, now) =>
      var r := w.readers[i];
      w.(chat := Take(w.chat, r), clock := now, readers := w.readers[i := r.(used := true)],
         claims := if Collides(w.chat, r) then w.claims else w.claims + [Claim(r.key, Whole(r.asked), Working)])
    case Check(e, now) =>
      var clear := e.conversation.Some? && !Refuses(w.chat, e) && !RunIn(e.run, w.chat.turns);
      w.(cleared := if clear then w.cleared + {e} else w.cleared, clock := now)
    case Answer(c, e, now) =>
      var chat := Record(w.chat, e, Some(w.claims[c].key), now);
      w.(chat := chat, clock := now,
         claims := if |chat.turns| > |w.chat.turns| then w.claims[c := w.claims[c].(stage := Written)] else w.claims)
    case GiveUp(c, status, now) =>
      w.(chat := Finish(w.chat, w.claims[c].key, status, now), clock := now,
         claims := w.claims[c := w.claims[c].(stage := Closed)])
    case Other(e, now) =>
      w.(chat := Record(w.chat, e, None, now), clock := now)
    case Archive(i, now) =>
      w.(chat := w.chat.(conversations := w.chat.conversations[i := w.chat.conversations[i].(archived := true)]), clock := now)
  }

  /** A path is the list of worlds it passes through, each reached by one allowed action. */
  ghost predicate Path(worlds: seq<World>, actions: seq<Action>) {
    && |worlds| == |actions| + 1
    && forall i | 0 <= i < |actions| :: Allowed(worlds[i], actions[i]) && worlds[i + 1] == Do(worlds[i], actions[i])
  }

  ghost predicate Run(worlds: seq<World>, actions: seq<Action>) {
    Path(worlds, actions) && worlds[0] == Start
  }

  ghost predicate TimelyRun(worlds: seq<World>, actions: seq<Action>) {
    Run(worlds, actions) && forall i | 0 <= i < |actions| :: Timely(worlds[i], actions[i])
  }

  // ------------------------------------------------------------------ the test the update omits

  /** The update of a claim finds the row still there, and a new look at it would still be answered with a claim. */
  predicate Passes(w: World, a: Action)
    requires Allowed(w, a)
  {
    a.Proceed? && w.readers[a.reader].found ==>
      var r := w.readers[a.reader];
      var rows := View(w.chat.rows, r.sweeps, r.look);
      r.key in rows && ReplyTo(rows, r.key, a.now).Claimed?
  }

  /** The update takes back a commit made since the row was read. */
  predicate Undoes(w: World, a: Action)
    requires Allowed(w, a)
  {
    && a.Proceed? && w.readers[a.reader].found
    && var r := w.readers[a.reader];
       var rows := View(w.chat.rows, r.sweeps, r.look);
       r.key in rows && rows[r.key].status == Committed
  }

  /** In every step an update passes the test. */
  ghost predicate TestedRun(worlds: seq<World>, actions: seq<Action>) {
    Run(worlds, actions) && forall i | 0 <= i < |actions| :: Passes(worlds[i], actions[i])
  }

  ghost predicate UndoesNothing(worlds: seq<World>, actions: seq<Action>) {
    Run(worlds, actions) && forall i | 0 <= i < |actions| :: !Undoes(worlds[i], actions[i])
  }

  // ------------------------------------------------------------------ what every run keeps

  ghost predicate TurnsOk(turns: seq<Turn>, clock: int) {
    && (forall i | 0 <= i < |turns| :: turns[i].at <= clock)
    && (forall i, j | 0 <= i < j < |turns| :: turns[i].at <= turns[j].at)
  }

  ghost predicate RunsDistinct(turns: seq<Turn>) {
    forall i, j | 0 <= i < j < |turns| && turns[i].run.Some? :: turns[i].run != turns[j].run
  }

  /** A committed row is the row of a filed turn of its own key. */
  ghost predicate RowsBacked(rows: map<Key, Row>, turns: seq<Turn>) {
    forall k | k in rows && rows[k].status == Committed :: BackedBy(rows[k], k, turns)
  }

  predicate BackedBy(row: Row, k: Key, turns: seq<Turn>) {
    && row.message.Some? && row.message.value < |turns|
    && var t := turns[row.message.value];
       t.key == Some(k) && t.filed && row == CommittedRow(t, row.message.value)
  }

  ghost predicate ReadersOk(readers: seq<Reader>, clock: int) {
    forall i | 0 <= i < |readers| :: 0 <= readers[i].asked <= readers[i].look <= clock
  }

  /** A cleared entry's conversation is there and of its case. It was open when the entry was checked. */
  ghost predicate ClearedOk(cleared: set<Entry>, conversations: seq<Conversation>) {
    forall e <- cleared :: e.conversation.Some? && e.conversation.value < |conversations|
                           && conversations[e.conversation.value].caseId == e.caseId
  }

  ghost predicate Inv(w: World) {
    && TurnsOk(w.chat.turns, w.clock)
    && RunsDistinct(w.chat.turns)
    && RowsBacked(w.chat.rows, w.chat.turns)
    && ReadersOk(w.readers, w.clock)
    && ClearedOk(w.cleared, w.chat.conversations)
  }

  predicate FiledFor(t: Turn, k: Key) {
    t.key == Some(k) && t.filed
  }

  /** Until a filed turn is past retention its key's row stays committed, for it or for a later turn. */
  ghost predicate TurnsKept(rows: map<Key, Row>, turns: seq<Turn>, clock: int) {
    forall i, k | 0 <= i < |turns| && FiledFor(turns[i], k) && clock <= turns[i].at + RETENTION :: KeptAt(rows, i, k)
  }

  predicate KeptAt(rows: map<Key, Row>, i: int, k: Key) {
    k in rows && rows[k].status == Committed && rows[k].message.Some? && rows[k].message.value >= i
  }

  ghost predicate Kept(w: World) {
    TurnsKept(w.chat.rows, w.chat.turns, w.clock)
  }

  lemma WholeIsBelow(t: int, u: int)
    ensures Whole(t) <= t < Whole(t) + 1000
    ensures t <= u ==> Whole(t) <= Whole(u)
    ensures Whole(t) < Whole(u) ==> t < u
  {
  }

  lemma DoKeepsInv(w: World, a: Action)
    requires Inv(w) && Allowed(w, a)
    ensures Inv(Do(w, a))
  {
    match a
    case Ask(_, _, _, _) => AskKeepsInv(w, a);
    case Proceed(_, _) => ClaimKeepsInv(w, a);
    case Check(_, _) =>
    case Answer(c, e, now) => RecordKeepsInv(w, e, Some(w.claims[c].key), now);
    case GiveUp(_, _, _) => GiveUpKeepsInv(w, a);
    case Other(e, now) => RecordKeepsInv(w, e, None, now);
    case Archive(_, _) =>
  }

  lemma AskKeepsInv(w: World, a: Action)
    requires Inv(w) && a.Ask? && Allowed(w, a)
    ensures Inv(Do(w, a))
  {
  }

  lemma ClaimKeepsInv(w: World, a: Action)
    requires Inv(w) && a.Proceed? && Allowed(w, a)
    ensures Inv(Do(w, a))
  {
  }

  lemma GiveUpKeepsInv(w: World, a: Action)
    requires Inv(w) && a.GiveUp? && Allowed(w, a)
    ensures Inv(Do(w, a))
    ensures forall k | k in w.chat.rows && w.chat.rows[k].status == Committed ::
              k in Do(w, a).chat.rows && Do(w, a).chat.rows[k] == w.chat.rows[k]
  {
  }

  lemma RecordKeepsInv(w: World, e: Entry, key: Option<Key>, now: int)
    requires Inv(w) && w.clock <= now && MayWrite(w, e)
    ensures Inv(w.(chat := Record(w.chat, e, key, now), clock := now))
  {
    if !RunIn(e.run, w.chat.turns) && !(e.conversation.None? && Refuses(w.chat, e)) {
      var c, turns := Write(w.chat, e, key, now), w.chat.turns;
      assert c.turns == turns + [NewTurn(w.chat, e, key, now)];
      forall k | k in c.rows && c.rows[k].status == Committed
        ensures BackedBy(c.rows[k], k, c.turns)
      {
        assert k in w.chat.rows && w.chat.rows[k] == c.rows[k] ==> BackedBy(w.chat.rows[k], k, turns);
      }
    }
  }

  lemma {:induction false} RunKeepsInv(worlds: seq<World>, actions: seq<Action>, n: nat)
    requires Run(worlds, actions) && n <= |actions|
    ensures Inv(worlds[n])
  {
    hide Inv, Do;
    if n == 0 {
      StartOk();
    } else {
      RunKeepsInv(worlds, actions, n - 1);
      assert worlds[n - 1 + 1] == Do(worlds[n - 1], actions[n - 1]);
      DoKeepsInv(worlds[n - 1], actions[n - 1]);
    }
  }

  lemma StartOk()
    ensures Inv(Start) && Good(Start)
  {
  }

  // ------------------------------------------------------------------ commits are kept, unless an update takes them back

  /** A stored stamp is past retention when it is seven days and a second old, for it says the second it falls in. */
  predicate PastRetention(row: Row, look: int) {
    look - row.updatedAt >= RETENTION + 1000
  }

  ghost predicate WholeStamps(rows: map<Key, Row>) {
    forall k <- rows :: Whole(rows[k].updatedAt) == rows[k].updatedAt
  }

  /** A sweep leaves exactly the rows that are not past retention, as they are. */
  lemma SweepLeavesExactly(rows: map<Key, Row>, look: int)
    requires WholeStamps(rows)
    ensures forall k :: k in Swept(rows, look) <==> k in rows && !PastRetention(rows[k], look)
    ensures forall k <- Swept(rows, look) :: Swept(rows, look)[k] == rows[k]
  {
    forall k | k in rows
      ensures rows[k].updatedAt < Whole(look - RETENTION) <==> PastRetention(rows[k], look)
    {
      WholeIsBelow(look - RETENTION, rows[k].updatedAt);
      WholeIsBelow(rows[k].updatedAt, look - RETENTION);
      StampBelow(rows[k].updatedAt, look - RETENTION);
    }
  }

  lemma StampBelow(stamp: int, t: int)
    requires Whole(stamp) == stamp
    ensures stamp < Whole(t) <==> stamp + 1000 <= t
  {
  }

  /** Every row is stamped in whole seconds, in any run. */
  lemma {:induction false} StampsAreWhole(worlds: seq<World>, actions: seq<Action>, n: nat)
    requires Run(worlds, actions) && n <= |actions|
    ensures WholeStamps(worlds[n].chat.rows)
  {
    hide Do;
    if n > 0 {
      StampsAreWhole(worlds, actions, n - 1);
      assert worlds[n - 1 + 1] == Do(worlds[n - 1], actions[n - 1]);
      DoKeepsStamps(worlds[n - 1], actions[n - 1]);
    }
  }

  lemma WholeTwice(t: int)
    ensures Whole(Whole(t)) == Whole(t)
  {
  }

  lemma DoKeepsStamps(w: World, a: Action)
    requires Allowed(w, a) && WholeStamps(w.chat.rows)
    ensures WholeStamps(Do(w, a).chat.rows)
  {
    WholeTwice(a.now);
    if a.Proceed? {
      WholeTwice(w.readers[a.reader].asked);
    }
    hide Whole, Answered, Refuses, RunIn, Stale;
  }

  /** A sweep is due an hour after the last one, and only the `begin` that finds it due takes it on. */
  lemma SweepIsHourly(w: World, k: Key, asked: int, now: int, monotonic: int)
    requires Allowed(w, Ask(k, asked, now, monotonic))
    ensures var (before, after) := (w.chat.lastPurge, Do(w, Ask(k, asked, now, monotonic)));
            && after.chat.lastPurge == (if monotonic - before >= 3_600_000 then monotonic else before)
            && (after.readers == w.readers
                || (|after.readers| == |w.readers| + 1
                    && (after.readers[|w.readers|].sweeps <==> monotonic - before >= 3_600_000)))
  {
    hide Answered, Swept;
  }

  /** In any run a claim written with a due sweep leaves its own row and exactly the others that are not past retention. */
  lemma ClaimSweeps(worlds: seq<World>, actions: seq<Action>, n: nat, r: nat, now: int)
    requires Run(worlds, actions) && n <= |actions| && Allowed(worlds[n], Proceed(r, now))
    requires worlds[n].readers[r].sweeps && !Collides(worlds[n].chat, worlds[n].readers[r])
    ensures var (before, after) := (worlds[n].chat.rows, Do(worlds[n], Proceed(r, now)).chat.rows);
            var (key, look) := (worlds[n].readers[r].key, worlds[n].readers[r].look);
            && (forall k | k != key :: k in after <==> k in before && !PastRetention(before[k], look))
            && forall k <- after | k != key :: after[k] == before[k]
  {
    StampsAreWhole(worlds, actions, n);
    SweepLeavesExactly(worlds[n].chat.rows, worlds[n].readers[r].look);
    hide Run, Swept, PastRetention;
  }

  /** The sweep removes a committed row only once its turn, and every earlier one, is past retention. */
  lemma SweepKeepsTurns(rows: map<Key, Row>, turns: seq<Turn>, clock: int, look: int, now: int)
    requires clock <= now && look <= now && TurnsOk(turns, clock) && RowsBacked(rows, turns) && TurnsKept(rows, turns, clock)
    ensures TurnsKept(Swept(rows, look), turns, now) && TurnsKept(rows, turns, now)
  {
    forall i, k | 0 <= i < |turns| && FiledFor(turns[i], k) && now <= turns[i].at + RETENTION
      ensures KeptAt(Swept(rows, look), i, k) && KeptAt(rows, i, k)
    {
      assert KeptAt(rows, i, k) && BackedBy(rows[k], k, turns);
      WholeIsBelow(look - RETENTION, turns[rows[k].message.value].at);
    }
  }

  lemma ProceedKeepsTurns(w: World, a: Action)
    requires Inv(w) && Kept(w) && a.Proceed? && Allowed(w, a) && !Undoes(w, a)
    ensures Kept(Do(w, a))
  {
    var r := w.readers[a.reader];
    SweepKeepsTurns(w.chat.rows, w.chat.turns, w.clock, r.look, a.now);
    var (rows, after) := (View(w.chat.rows, r.sweeps, r.look), Do(w, a).chat.rows);
    assert TurnsKept(rows, w.chat.turns, a.now);
    forall i, k | 0 <= i < |w.chat.turns| && FiledFor(w.chat.turns[i], k) && a.now <= w.chat.turns[i].at + RETENTION
      ensures KeptAt(after, i, k)
    {
      assert KeptAt(rows, i, k) && KeptAt(w.chat.rows, i, k);
    }
  }

  lemma RecordKeepsTurns(w: World, e: Entry, key: Option<Key>, now: int)
    requires Inv(w) && Kept(w) && w.clock <= now
    ensures Kept(w.(chat := Record(w.chat, e, key, now), clock := now))
  {
    SweepKeepsTurns(w.chat.rows, w.chat.turns, w.clock, now, now);
    var c := Record(w.chat, e, key, now);
    if c.turns != w.chat.turns {
      forall i, k | 0 <= i < |c.turns| && FiledFor(c.turns[i], k) && now <= c.turns[i].at + RETENTION
        ensures KeptAt(c.rows, i, k)
      {
        if i < |w.chat.turns| {
          assert c.turns[i] == w.chat.turns[i] && KeptAt(w.chat.rows, i, k);
        }
      }
    }
  }

  lemma GiveUpKeepsTurns(w: World, a: Action)
    requires Inv(w) && Kept(w) && a.GiveUp? && Allowed(w, a)
    ensures Kept(Do(w, a))
  {
    SweepKeepsTurns(w.chat.rows, w.chat.turns, w.clock, a.now, a.now);
    GiveUpKeepsInv(w, a);
    forall i, k | 0 <= i < |w.chat.turns| && FiledFor(w.chat.turns[i], k) && a.now <= w.chat.turns[i].at + RETENTION
      ensures KeptAt(Do(w, a).chat.rows, i, k)
    {
      assert KeptAt(w.chat.rows, i, k);
    }
  }

  lemma DoKeepsTurns(w: World, a: Action)
    requires Inv(w) && Kept(w) && Allowed(w, a) && !Undoes(w, a)
    ensures Kept(Do(w, a))
  {
    hide TurnsKept, Record, Take;
    SweepKeepsTurns(w.chat.rows, w.chat.turns, w.clock, a.now, a.now);
    match a
    case Ask(_, _, _, _) =>
    case Proceed(_, _) => ProceedKeepsTurns(w, a);
    case Check(_, _) =>
    case Answer(c, e, now) => RecordKeepsTurns(w, e, Some(w.claims[c].key), now);
    case GiveUp(_, _, _) => GiveUpKeepsTurns(w, a);
    case Other(e, now) => RecordKeepsTurns(w, e, None, now);
    case Archive(_, _) =>
  }

  lemma {:induction false} RunKeepsTurns(worlds: seq<World>, actions: seq<Action>, n: nat)
    requires UndoesNothing(worlds, actions) && n <= |actions|
    ensures Inv(worlds[n]) && Kept(worlds[n])
  {
    hide Inv, Kept, Do, Undoes;
    if n == 0 {
      StartOk();
    } else {
      RunKeepsTurns(worlds, actions, n - 1);
      assert worlds[n - 1 + 1] == Do(worlds[n - 1], actions[n - 1]);
      DoKeepsInv(worlds[n - 1], actions[n - 1]);
      DoKeepsTurns(worlds[n - 1], actions[n - 1]);
    }
  }

  /** A request given up by the worker that holds it can be claimed again at once. */
  lemma GivenUpCanBeRetried(w: World, c: nat, status: Status, now: int, monotonic: int)
    requires Allowed(w, GiveUp(c, status, now)) && HeldBy(w.chat.rows, w.claims[c])
    ensures var (after, k) := (Do(w, GiveUp(c, status, now)), w.claims[c].key);
            && k in after.chat.rows && after.chat.rows[k].status == status && after.claims[c].stage == Closed
            && after.chat.turns == w.chat.turns && Answered(after.chat, k, now, monotonic) == Claimed
            && forall other <- w.chat.rows | other != k :: other in after.chat.rows && after.chat.rows[other] == w.chat.rows[other]
  {
  }

  // ------------------------------------------------------------------ at most one turn

  /** The row is this claim's own: still in progress, with the stamp the claim stored. */
  predicate HeldBy(rows: map<Key, Row>, c: Claim) {
    c.key in rows && rows[c.key].status == InProgress && rows[c.key].updatedAt == c.stamp
  }

  predicate SettledBy(rows: map<Key, Row>, c: Claim) {
    c.key in rows && rows[c.key].status == Committed && rows[c.key].updatedAt >= c.stamp
  }

  predicate Holds(c: Claim, clock: int) {
    c.stage == Working && !Stale(c.stamp, clock)
  }

  ghost predicate ClaimsOk(rows: map<Key, Row>, claims: seq<Claim>, clock: int) {
    && (forall i | 0 <= i < |claims| :: claims[i].stamp <= clock && Whole(claims[i].stamp) == claims[i].stamp)
    && (forall i | 0 <= i < |claims| && Holds(claims[i], clock) :: HeldBy(rows, claims[i]))
    && (forall i | 0 <= i < |claims| && claims[i].stage == Written && !Stale(claims[i].stamp, clock) ::
          SettledBy(rows, claims[i]))
    && (forall i, j | 0 <= i < j < |claims| && Holds(claims[i], clock) && Holds(claims[j], clock) ::
          claims[i].key != claims[j].key)
  }

  /** A row in progress is some working claim's. */
  ghost predicate RowsHeld(rows: map<Key, Row>, claims: seq<Claim>) {
    forall k | k in rows && rows[k].status == InProgress :: Held(rows[k], k, claims)
  }

  ghost predicate Held(row: Row, k: Key, claims: seq<Claim>) {
    exists i | 0 <= i < |claims| :: claims[i] == Claim(k, row.updatedAt, Working)
  }

  /** Every turn answering a request is filed, and two for the same request lie more than the retention apart. */
  ghost predicate Spaced(turns: seq<Turn>) {
    && (forall i | 0 <= i < |turns| && turns[i].key.Some? :: turns[i].filed)
    && (forall i, j | 0 <= i < j < |turns| && turns[i].key.Some? && turns[i].key == turns[j].key ::
          turns[j].at > turns[i].at + RETENTION)
  }

  ghost predicate Good(w: World) {
    && Inv(w) && Kept(w)
    && ClaimsOk(w.chat.rows, w.claims, w.clock) && RowsHeld(w.chat.rows, w.claims)
    && Spaced(w.chat.turns)
  }

  /** The sweep never removes the row of a live claim, nor the row a live claim's turn left. */
  lemma SweepKeepsClaims(rows: map<Key, Row>, claims: seq<Claim>, clock: int, look: int, now: int)
    requires clock <= now && look <= now && ClaimsOk(rows, claims, clock)
    ensures ClaimsOk(Swept(rows, look), claims, now)
    ensures ClaimsOk(rows, claims, now)
  {
    forall i | 0 <= i < |claims| && !Stale(claims[i].stamp, now) && claims[i].stage != Closed
      ensures claims[i].stage == Working ==> HeldBy(rows, claims[i]) && HeldBy(Swept(rows, look), claims[i])
      ensures claims[i].stage == Written ==> SettledBy(Swept(rows, look), claims[i])
    {
      assert claims[i].stage == Working ==> Holds(claims[i], clock);
      WholeIsBelow(look - RETENTION, claims[i].stamp);
    }
    assert forall i | 0 <= i < |claims| && Holds(claims[i], now) :: Holds(claims[i], clock);
  }

  lemma SweepKeepsHeld(rows: map<Key, Row>, claims: seq<Claim>, look: int)
    requires RowsHeld(rows, claims)
    ensures RowsHeld(Swept(rows, look), claims)
  {
  }

  /** A request whose claim is granted has no other live claim. */
  lemma GrantKeepsClaims(rows: map<Key, Row>, claims: seq<Claim>, now: int, k: Key, asked: int)
    requires ClaimsOk(rows, claims, now) && 0 <= asked <= now && ReplyTo(rows, k, now).Claimed?
    ensures ClaimsOk(rows[k := Row(InProgress, None, None, Whole(asked))], claims + [Claim(k, Whole(asked), Working)], now)
  {
    var more := claims + [Claim(k, Whole(asked), Working)];
    forall i | 0 <= i < |claims|
      ensures Holds(more[i], now) || (more[i].stage == Written && !Stale(more[i].stamp, now)) ==> more[i].key != k
    {
      assert more[i] == claims[i];
    }
  }

  lemma GrantKeepsHeld(rows: map<Key, Row>, claims: seq<Claim>, k: Key, asked: int)
    requires RowsHeld(rows, claims)
    ensures RowsHeld(rows[k := Row(InProgress, None, None, Whole(asked))], claims + [Claim(k, Whole(asked), Working)])
  {
    var more := claims + [Claim(k, Whole(asked), Working)];
    var rows' := rows[k := Row(InProgress, None, None, Whole(asked))];
    forall q | q in rows' && rows'[q].status == InProgress
      ensures Held(rows'[q], q, more)
    {
      if q == k {
        assert more[|claims|] == Claim(k, Whole(asked), Working);
      } else {
        var i :| 0 <= i < |claims| && claims[i] == Claim(q, rows[q].updatedAt, Working);
        assert more[i] == claims[i];
      }
    }
  }

  lemma AskKeepsClaims(w: World, a: Action)
    requires a.Ask? && Allowed(w, a) && ClaimsOk(w.chat.rows, w.claims, w.clock) && RowsHeld(w.chat.rows, w.claims)
    ensures ClaimsOk(Do(w, a).chat.rows, w.claims, a.now) && RowsHeld(Do(w, a).chat.rows, w.claims)
  {
    hide ClaimsOk, RowsHeld;
    SweepKeepsClaims(w.chat.rows, w.claims, w.clock, a.now, a.now);
    SweepKeepsHeld(w.chat.rows, w.claims, a.now);
  }

  lemma ProceedKeepsClaims(w: World, a: Action)
    requires a.Proceed? && Good(w) && Allowed(w, a) && Passes(w, a)
    ensures ClaimsOk(Do(w, a).chat.rows, Do(w, a).claims, a.now) && RowsHeld(Do(w, a).chat.rows, Do(w, a).claims)
  {
    var r := w.readers[a.reader];
    assert 0 <= r.asked <= r.look <= w.clock;
    hide ClaimsOk, RowsHeld, Inv, Kept, Spaced;
    SweepKeepsClaims(w.chat.rows, w.claims, w.clock, r.look, a.now);
    SweepKeepsHeld(w.chat.rows, w.claims, r.look);
    var rows := View(w.chat.rows, r.sweeps, r.look);
    if !Collides(w.chat, r) {
      GrantKeepsClaims(rows, w.claims, a.now, r.key, r.asked);
      GrantKeepsHeld(rows, w.claims, r.key, r.asked);
    }
  }

  lemma AnswerKeepsClaims(rows: map<Key, Row>, claims: seq<Claim>, now: int, c: nat, row: Row)
    requires ClaimsOk(rows, claims, now) && RowsHeld(rows, claims) && c < |claims| && Holds(claims[c], now)
    requires row.status == Committed && row.updatedAt == Whole(now)
    ensures ClaimsOk(rows[claims[c].key := row], claims[c := claims[c].(stage := Written)], now)
    ensures RowsHeld(rows[claims[c].key := row], claims[c := claims[c].(stage := Written)])
  {
    WholeIsBelow(claims[c].stamp, now);
    var (after, rows') := (claims[c := claims[c].(stage := Written)], rows[claims[c].key := row]);
    forall i | 0 <= i < |after| && i != c
      ensures after[i] == claims[i] && (Holds(after[i], now) ==> after[i].key != claims[c].key)
      ensures after[i].stage == Written && !Stale(after[i].stamp, now) ==> after[i].key != claims[c].key
    {
    }
    ChangeKeepsHeld(rows, rows', claims, after, c);
  }

  /** Only one claim changes, and its own row is no longer in progress. */
  lemma ChangeKeepsHeld(rows: map<Key, Row>, rows': map<Key, Row>, claims: seq<Claim>, after: seq<Claim>, c: nat)
    requires RowsHeld(rows, claims) && c < |claims| == |after| && forall i | 0 <= i < |claims| && i != c :: after[i] == claims[i]
    requires forall q | q in rows' && rows'[q].status == InProgress :: q in rows && rows'[q] == rows[q] && q != claims[c].key
    ensures RowsHeld(rows', after)
  {
    forall q | q in rows' && rows'[q].status == InProgress
      ensures Held(rows'[q], q, after)
    {
      var i :| 0 <= i < |claims| && claims[i] == Claim(q, rows[q].updatedAt, Working);
      assert after[i] == claims[i];
    }
  }

  lemma GiveUpKeepsClaims(chat: Chat, claims: seq<Claim>, now: int, c: nat, status: Status)
    requires ClaimsOk(chat.rows, claims, now) && RowsHeld(chat.rows, claims) && c < |claims| && claims[c].stage != Closed
    requires !Stale(claims[c].stamp, now) && status in {Failed, Cancelled}
    ensures ClaimsOk(Finish(chat, claims[c].key, status, now).rows, claims[c := claims[c].(stage := Closed)], now)
    ensures RowsHeld(Finish(chat, claims[c].key, status, now).rows, claims[c := claims[c].(stage := Closed)])
  {
    var after := claims[c := claims[c].(stage := Closed)];
    forall i | 0 <= i < |after| && i != c && after[i].stage != Closed && !Stale(after[i].stamp, now)
      ensures after[i] == claims[i]
      ensures claims[c].stage == Working ==> after[i].key != claims[c].key
    {
      assert Holds(claims[c], now) <==> claims[c].stage == Working;
      assert Holds(claims[i], now) <==> claims[i].stage == Working;
    }
    assert claims[c].stage == Written ==> SettledBy(chat.rows, claims[c]);
    assert claims[c].stage == Working ==> Holds(claims[c], now) && HeldBy(chat.rows, claims[c]);
    assert forall i | 0 <= i < |after| && Holds(after[i], now) :: i != c && Holds(claims[i], now);
    ChangeKeepsHeld(chat.rows, Finish(chat, claims[c].key, status, now).rows, claims, after, c);
  }

  /** A live claim's commit finds its own row, so every earlier turn of the request is past retention. */
  lemma WriteKeepsSpacing(w: World, e: Entry, c: nat, now: int)
    requires Inv(w) && Kept(w) && Spaced(w.chat.turns) && w.clock <= now
    requires c < |w.claims| && HeldBy(w.chat.rows, w.claims[c])
    ensures Spaced(Write(w.chat, e, Some(w.claims[c].key), now).turns)
  {
    var k, turns := w.claims[c].key, w.chat.turns;
    var after := Write(w.chat, e, Some(k), now).turns;
    assert after == turns + [NewTurn(w.chat, e, Some(k), now)];
    forall i | 0 <= i < |turns| && turns[i].key == Some(k)
      ensures now > turns[i].at + RETENTION
    {
      assert FiledFor(turns[i], k);
      assert w.clock <= turns[i].at + RETENTION ==> KeptAt(w.chat.rows, i, k);
    }
  }

  lemma AnswerKeepsGood(w: World, a: Action)
    requires a.Answer? && Good(w) && Allowed(w, a) && Timely(w, a)
    ensures ClaimsOk(Do(w, a).chat.rows, Do(w, a).claims, a.now) && RowsHeld(Do(w, a).chat.rows, Do(w, a).claims)
    ensures Spaced(Do(w, a).chat.turns)
  {
    hide Inv, Kept, Spaced, RowsHeld;
    var k := w.claims[a.claim].key;
    SweepKeepsClaims(w.chat.rows, w.claims, w.clock, a.now, a.now);
    assert Holds(w.claims[a.claim], a.now) && HeldBy(w.chat.rows, w.claims[a.claim]);
    hide ClaimsOk;
    if !(a.entry.conversation.None? && Refuses(w.chat, a.entry)) && !RunIn(a.entry.run, w.chat.turns) {
      WriteKeepsSpacing(w, a.entry, a.claim, a.now);
      var t := NewTurn(w.chat, a.entry, Some(k), a.now);
      AnswerKeepsClaims(w.chat.rows, w.claims, a.now, a.claim, CommittedRow(t, |w.chat.turns|));
    }
  }

  lemma OtherKeepsSpacing(c: Chat, e: Entry, now: int)
    requires Spaced(c.turns)
    ensures Spaced(Record(c, e, None, now).turns) && Record(c, e, None, now).rows == c.rows
  {
  }

  lemma DoKeepsGood(w: World, a: Action)
    requires Good(w) && Allowed(w, a) && Timely(w, a) && Passes(w, a)
    ensures Good(Do(w, a))
  {
    hide Inv, Kept, Spaced, ClaimsOk, RowsHeld, Record;
    DoKeepsInv(w, a);
    DoKeepsTurns(w, a);
    SweepKeepsClaims(w.chat.rows, w.claims, w.clock, a.now, a.now);
    match a
    case Ask(_, _, _, _) => AskKeepsClaims(w, a);
    case Proceed(_, _) => ProceedKeepsClaims(w, a);
    case Check(_, _) =>
    case Answer(_, _, _) => AnswerKeepsGood(w, a);
    case GiveUp(c, status, now) => GiveUpKeepsClaims(w.chat, w.claims, now, c, status);
    case Other(e, now) => OtherKeepsSpacing(w.chat, e, now);
    case Archive(_, _) =>
  }

  lemma {:induction false} GoodThroughout(worlds: seq<World>, actions: seq<Action>, n: nat)
    requires TimelyRun(worlds, actions) && TestedRun(worlds, actions) && n <= |actions|
    ensures Good(worlds[n])
  {
    hide Good, Do, Passes, Timely;
    if n == 0 {
      StartOk();
    } else {
      GoodThroughout(worlds, actions, n - 1);
      assert worlds[n - 1 + 1] == Do(worlds[n - 1], actions[n - 1]);
      DoKeepsGood(worlds[n - 1], actions[n - 1]);
    }
  }

  /**
   When every worker acts before its stored stamp is stale, and every update of a claim passes the
   test it does not make, a request is answered at most once within the retention, whatever the
   other workers and the retries do.
   */
  lemma AtMostOneTurn(worlds: seq<World>, actions: seq<Action>, n: nat, i: nat, j: nat)
    requires TimelyRun(worlds, actions) && TestedRun(worlds, actions) && n <= |actions|
    requires i < j < |worlds[n].chat.turns|
    requires worlds[n].chat.turns[i].key.Some? && worlds[n].chat.turns[i].key == worlds[n].chat.turns[j].key
    ensures worlds[n].chat.turns[j].at > worlds[n].chat.turns[i].at + RETENTION
  {
    hide Inv, Kept, ClaimsOk, RowsHeld;
    GoodThroughout(worlds, actions, n);
  }

  /** Then, until the retention is over, every retry is answered with exactly the payload of that turn. */
  lemma RetriesReplay(worlds: seq<World>, actions: seq<Action>, n: nat, i: nat, k: Key, now: int, monotonic: int)
    requires TimelyRun(worlds, actions) && TestedRun(worlds, actions) && n <= |actions| && worlds[n].clock <= now
    requires i < |worlds[n].chat.turns| && worlds[n].chat.turns[i].key == Some(k)
    requires now <= worlds[n].chat.turns[i].at + RETENTION
    ensures Answered(worlds[n].chat, k, now, monotonic) == Replay(PayloadOf(worlds[n].chat.turns[i], i), Some(i))
  {
    GoodThroughout(worlds, actions, n);
    ReplaysLast(worlds[n], i, k, now, monotonic);
  }

  lemma ReplaysLast(w: World, i: nat, k: Key, now: int, monotonic: int)
    requires Good(w) && w.clock <= now && i < |w.chat.turns| && w.chat.turns[i].key == Some(k)
    requires now <= w.chat.turns[i].at + RETENTION
    ensures Answered(w.chat, k, now, monotonic) == Replay(PayloadOf(w.chat.turns[i], i), Some(i))
  {
    hide ClaimsOk, RowsHeld;
    var turns := w.chat.turns;
    assert FiledFor(turns[i], k) && KeptAt(w.chat.rows, i, k);
    assert BackedBy(w.chat.rows[k], k, turns);
    assert forall j | i < j < |turns| && turns[j].key == Some(k) :: turns[j].at > turns[i].at + RETENTION;
    SweepKeepsTurns(w.chat.rows, turns, w.clock, now, now);
    assert KeptAt(View(w.chat.rows, Sweeps(w.chat, monotonic), now), i, k);
  }

  // ------------------------------------------------------------------ what the missing test lets through

  /** A claim is granted although another is live. */
  ghost predicate Intrudes(w: World, k: Key, now: int) {
    exists i | 0 <= i < |w.claims| :: Holds(w.claims[i], now) && w.claims[i].key == k
  }

  /**
   An update of a claim does harm exactly when it fails the test: it intrudes on a live claim,
   takes back a commit, or grants a claim on a row that is no longer there.
   */
  lemma UpdateHarmsExactlyUntested(w: World, a: Action)
    requires Good(w) && a.Proceed? && Allowed(w, a) && w.readers[a.reader].found
    ensures !Passes(w, a) <==>
            || Intrudes(w, w.readers[a.reader].key, a.now)
            || Undoes(w, a)
            || w.readers[a.reader].key !in Do(w, a).chat.rows
  {
    hide Inv, Kept, Spaced;
    var r := w.readers[a.reader];
    var rows := View(w.chat.rows, r.sweeps, r.look);
    ReaderWasBefore(w, a.reader);
    SweepKeepsClaims(w.chat.rows, w.claims, w.clock, r.look, a.now);
    SweepKeepsHeld(w.chat.rows, w.claims, r.look);
    assert ClaimsOk(rows, w.claims, a.now) && RowsHeld(rows, w.claims);
    if r.key in rows && rows[r.key].status == InProgress {
      assert Held(rows[r.key], r.key, w.claims);
      var i :| 0 <= i < |w.claims| && w.claims[i] == Claim(r.key, rows[r.key].updatedAt, Working);
      assert !Stale(rows[r.key].updatedAt, a.now) ==> Holds(w.claims[i], a.now);
    }
    forall i | 0 <= i < |w.claims| && Holds(w.claims[i], a.now) && w.claims[i].key == r.key
      ensures !Passes(w, a)
    {
      assert HeldBy(rows, w.claims[i]);
    }
  }

  lemma ReaderWasBefore(w: World, r: nat)
    requires Inv(w) && r < |w.readers|
    ensures w.readers[r].look <= w.clock
  {
  }

  /** An update whose rows nobody changed since they were read passes the test: only a race can fail it. */
  lemma UnracedUpdatePasses(w: World, a: Action, c: Chat, k: Key, asked: int, look: int, monotonic: int)
    requires a.Proceed? && Allowed(w, a) && w.chat.rows == c.rows && look <= a.now
    requires w.readers[a.reader] == ReaderOf(c, k, asked, look, monotonic) && Answered(c, k, look, monotonic).Claimed?
    ensures Passes(w, a)
  {
  }

  // ------------------------------------------------------------------ two retries at once

  /** A request that failed or was cancelled, and no sweep due: what any retry of it finds. */
  predicate Retryable(w: World, k: Key, now: int) {
    && k in w.chat.rows && (w.chat.rows[k].status == Failed || w.chat.rows[k].status == Cancelled)
    && 0 <= w.clock <= now
  }

  predicate Plain(e: Entry) {
    e.knownKind && !e.blank && !e.disconnected && e.conversation.None? && e.run.None?
  }

  lemma RetryLooks(w: World, k: Key, now: int)
    requires Retryable(w, k, now)
    ensures var a := Ask(k, now, now, w.chat.lastPurge);
            Allowed(w, a) && Do(w, a) == w.(readers := w.readers + [Reader(k, now, now, false, true, false)], clock := now)
  {
  }

  lemma RetryProceeds(w: World, i: nat, k: Key, now: int)
    requires i < |w.readers| && w.readers[i] == Reader(k, now, now, false, true, false)
    requires k in w.chat.rows && 0 <= w.clock <= now
    ensures var a := Proceed(i, now);
            && Allowed(w, a)
            && Do(w, a) == w.(chat := w.chat.(rows := w.chat.rows[k := Row(InProgress, None, None, Whole(now))]), clock := now,
                              readers := w.readers[i := Reader(k, now, now, false, true, true)],
                              claims := w.claims + [Claim(k, Whole(now), Working)])
  {
  }

  lemma RetryAnswers(w: World, c: nat, k: Key, e: Entry, now: int)
    requires c < |w.claims| && w.claims[c] == Claim(k, Whole(now), Working)
    requires Plain(e) && k in w.chat.rows && 0 <= w.clock <= now
    ensures var a := Answer(c, e, now);
            && Allowed(w, a) && Timely(w, a)
            && var t := Turn(|w.chat.conversations|, e.answer, None, Some(k), true, now);
               Do(w, a) == w.(chat := Chat(w.chat.rows[k := CommittedRow(t, |w.chat.turns|)], w.chat.lastPurge,
                                           w.chat.conversations + [Conversation(e.caseId, false)], w.chat.turns + [t]),
                              clock := now, claims := w.claims[c := Claim(k, Whole(now), Written)])
  {
    assert |w.chat.turns + [NewTurn(w.chat, e, Some(k), now)]| == |w.chat.turns| + 1;
  }

  /** Two retries that both look before either writes: both are granted the claim. */
  lemma BothClaim(w: World, k: Key, now: int) returns (worlds: seq<World>, actions: seq<Action>)
    requires Retryable(w, k, now)
    ensures Path(worlds, actions) && |actions| == 4 && worlds[0] == w && forall i | 0 <= i < 4 :: Timely(worlds[i], actions[i])
    ensures actions == [Ask(k, now, now, w.chat.lastPurge), Ask(k, now, now, w.chat.lastPurge),
                        Proceed(|w.readers|, now), Proceed(|w.readers| + 1, now)]
    ensures worlds[4].chat == w.chat.(rows := w.chat.rows[k := Row(InProgress, None, None, Whole(now))]) && worlds[4].clock == now
    ensures worlds[4].claims == w.claims + [Claim(k, Whole(now), Working), Claim(k, Whole(now), Working)]
  {
    var n := |w.readers|;
    actions := [Ask(k, now, now, w.chat.lastPurge), Ask(k, now, now, w.chat.lastPurge), Proceed(n, now), Proceed(n + 1, now)];
    hide Do, Allowed;
    RetryLooks(w, k, now);
    var w1 := Do(w, actions[0]);
    RetryLooks(w1, k, now);
    var w2 := Do(w1, actions[1]);
    RetryProceeds(w2, n, k, now);
    var w3 := Do(w2, actions[2]);
    RetryProceeds(w3, n + 1, k, now);
    var w4 := Do(w3, actions[3]);
    worlds := [w, w1, w2, w3, w4];
  }

  /** Whenever a request has failed or was cancelled, two punctual workers can answer it in the same moment. */
  lemma RacingRetriesBothAnswer(w: World, k: Key, e: Entry, now: int) returns (worlds: seq<World>, actions: seq<Action>)
    requires Retryable(w, k, now) && Plain(e)
    ensures Path(worlds, actions) && |actions| == 6 && worlds[0] == w && forall i | 0 <= i < 6 :: Timely(worlds[i], actions[i])
    ensures actions == [Ask(k, now, now, w.chat.lastPurge), Ask(k, now, now, w.chat.lastPurge),
                        Proceed(|w.readers|, now), Proceed(|w.readers| + 1, now),
                        Answer(|w.claims|, e, now), Answer(|w.claims| + 1, e, now)]
    ensures var (turns, n) := (worlds[6].chat.turns, |w.chat.turns|);
            |turns| == n + 2 && FiledFor(turns[n], k) && FiledFor(turns[n + 1], k) && turns[n].at == turns[n + 1].at == now
  {
    var c := |w.claims|;
    worlds, actions := BothClaim(w, k, now);
    hide Do, Allowed, Timely;
    var w4 := worlds[4];
    RetryAnswers(w4, c, k, e, now);
    var w5 := Do(w4, Answer(c, e, now));
    RetryAnswers(w5, c + 1, k, e, now);
    var w6 := Do(w5, Answer(c + 1, e, now));
    var more := worlds + [w5, w6];
    actions := actions + [Answer(c, e, now), Answer(c + 1, e, now)];
    forall i | 0 <= i < 6
      ensures Allowed(more[i], actions[i]) && more[i + 1] == Do(more[i], actions[i]) && Timely(more[i], actions[i])
    {
      assert i < 4 ==> more[i] == worlds[i] && more[i + 1] == worlds[i + 1];
    }
    worlds := more;
  }

  /** A request fails in three steps from the start, so such worlds are reached. */
  lemma FailedIsReached(k: Key) returns (worlds: seq<World>, actions: seq<Action>)
    ensures TimelyRun(worlds, actions) && |actions| == 3 && Retryable(worlds[3], k, 1)
    ensures actions == [Ask(k, 0, 0, 0), Proceed(0, 0), GiveUp(0, Failed, 1)]
  {
    actions := [Ask(k, 0, 0, 0), Proceed(0, 0), GiveUp(0, Failed, 1)];
    var w1 := Do(Start, actions[0]);
    assert w1.readers == [Reader(k, 0, 0, false, false, false)] && w1.chat == Start.chat;
    var w2 := Do(w1, actions[1]);
    assert w2.claims == [Claim(k, 0, Working)] && w2.chat.rows == map[k := Row(InProgress, None, None, 0)];
    var w3 := Do(w2, actions[2]);
    worlds := [Start, w1, w2, w3];
  }

  /** A delayed update takes the other retry's commit back: the turn stands, but its request is in progress again. */
  lemma DelayedUpdateTakesCommitBack(w: World, k: Key, e: Entry, now: int) returns (worlds: seq<World>, actions: seq<Action>)
    requires Retryable(w, k, now) && Plain(e)
    ensures Path(worlds, actions) && |actions| == 5 && worlds[0] == w && forall i | 0 <= i < 5 :: Timely(worlds[i], actions[i])
    ensures actions == [Ask(k, now, now, w.chat.lastPurge), Ask(k, now, now, w.chat.lastPurge),
                        Proceed(|w.readers|, now), Answer(|w.claims|, e, now), Proceed(|w.readers| + 1, now)]
    ensures Undoes(worlds[4], actions[4])
    ensures var (c, n) := (worlds[5].chat, |w.chat.turns|);
            && |c.turns| == n + 1 && FiledFor(c.turns[n], k) && c.turns[n].at == now
            && Answered(c, k, now, w.chat.lastPurge) == Busy
  {
    var (r, c) := (|w.readers|, |w.claims|);
    actions := [Ask(k, now, now, w.chat.lastPurge), Ask(k, now, now, w.chat.lastPurge), Proceed(r, now),
                Answer(c, e, now), Proceed(r + 1, now)];
    hide Do, Allowed;
    RetryLooks(w, k, now);
    var w1 := Do(w, actions[0]);
    RetryLooks(w1, k, now);
    var w2 := Do(w1, actions[1]);
    RetryProceeds(w2, r, k, now);
    var w3 := Do(w2, actions[2]);
    RetryAnswers(w3, c, k, e, now);
    var w4 := Do(w3, actions[3]);
    RetryProceeds(w4, r + 1, k, now);
    var w5 := Do(w4, actions[4]);
    worlds := [w, w1, w2, w3, w4, w5];
  }

  // ------------------------------------------------------------------ turns

  /** In any run at all, no run id is on two turns. */
  lemma RunIdsAreUnique(worlds: seq<World>, actions: seq<Action>, n: nat, i: nat, j: nat)
    requires Run(worlds, actions) && n <= |actions|
    requires i < j < |worlds[n].chat.turns| && worlds[n].chat.turns[i].run.Some?
    ensures worlds[n].chat.turns[i].run != worlds[n].chat.turns[j].run
  {
    hide Run, RowsBacked;
    RunKeepsInv(worlds, actions, n);
  }

  /** A repeated run adds no message and commits no request; it may still open an empty conversation. */
  lemma RepeatedRunAddsNoMessage(c: Chat, e: Entry, key: Option<Key>, now: int)
    requires RunIn(e.run, c.turns)
    ensures Record(c, e, key, now).turns == c.turns && Record(c, e, key, now).rows == c.rows
    ensures Record(c, e, key, now).conversations != c.conversations <==> e.conversation.None? && !Refuses(c, e)
  {
  }

  /** A new turn is at the end, in a conversation of the entry's own case; a conversation opened for it is not archived. */
  lemma WrittenInItsCase(w: World, e: Entry, key: Option<Key>, now: int)
    requires Inv(w) && MayWrite(w, e) && Record(w.chat, e, key, now).turns != w.chat.turns
    ensures var (after, n) := (Record(w.chat, e, key, now), |w.chat.turns|);
            && |after.turns| == n + 1 && after.turns[..n] == w.chat.turns
            && after.turns[n].conversation < |after.conversations|
            && after.conversations[after.turns[n].conversation].caseId == e.caseId
            && (e.conversation.None? ==> !after.conversations[after.turns[n].conversation].archived)
  {
  }

  /**
   A turn is written exactly when its run id is new and the conversation is given, as checked
   before, or can be opened.  It is one turn at the end, in that conversation, with the entry's
   answer, run and key and the time of the write, and its request row, if there, is committed to it.
   Otherwise no message and no row changes.
   */
  lemma TurnWrittenExactly(c: Chat, e: Entry, key: Option<Key>, now: int)
    ensures var (after, n) := (Record(c, e, key, now), |c.turns|);
            if RunIn(e.run, c.turns) || (e.conversation.None? && (!e.knownKind || e.blank || e.disconnected))
            then after.turns == c.turns && after.rows == c.rows
            else
              var place := if e.conversation.Some? then e.conversation.value else |c.conversations|;
              && after.conversations == c.conversations + (if e.conversation.None? then [Conversation(e.caseId, false)] else [])
              && |after.turns| == n + 1 && after.turns[..n] == c.turns
              && var t := after.turns[n];
                 && t.conversation == place && t.answer == e.answer && t.run == e.run && t.key == key && t.at == now
                 && (t.filed <==> key.Some? && key.value in c.rows)
                 && after.rows == if !t.filed then c.rows
                                  else c.rows[key.value := Row(Committed, Some(n), Some(Payload(place, n, e.answer)), Whole(now))]
  {
  }

  /** A question in an open conversation of the case passes its check, and its answer is written there. */
  lemma FollowUpIsWritten(w: World, claim: nat, e: Entry, now: int)
    requires claim < |w.claims| && w.claims[claim].stage == Working && w.clock <= now
    requires e.knownKind && !e.blank && !e.disconnected && !RunIn(e.run, w.chat.turns)
    requires e.conversation.Some? && e.conversation.value < |w.chat.conversations|
    requires w.chat.conversations[e.conversation.value] == Conversation(e.caseId, false)
    ensures Allowed(w, Check(e, now)) && Allowed(Do(w, Check(e, now)), Answer(claim, e, now))
    ensures var (after, n) := (Do(Do(w, Check(e, now)), Answer(claim, e, now)), |w.chat.turns|);
            && |after.chat.turns| == n + 1 && after.chat.turns[..n] == w.chat.turns
            && after.chat.turns[n].conversation == e.conversation.value && after.chat.turns[n].answer == e.answer
            && after.claims[claim].stage == Written
            && (w.claims[claim].key in w.chat.rows ==> after.chat.rows[w.claims[claim].key].status == Committed)
  {
    var k := w.claims[claim].key;
    TurnWrittenExactly(w.chat, e, Some(k), now);
    hide Record, RunIn;
    assert e in Do(w, Check(e, now)).cleared;
  }

  /** A given conversation may have been archived by then, but it was open at an earlier moment of the run. */
  lemma {:induction false} ClearedWhileOpen(worlds: seq<World>, actions: seq<Action>, n: nat, e: Entry) returns (m: nat)
    requires Run(worlds, actions) && n <= |actions| && e in worlds[n].cleared
    ensures m < n && !Refuses(worlds[m].chat, e) && !RunIn(e.run, worlds[m].chat.turns)
  {
    hide Refuses, RunIn, Look, Take, Record, Finish, Answered, Collides;
    assert n > 0;
    assert worlds[n - 1 + 1] == Do(worlds[n - 1], actions[n - 1]);
    if e in worlds[n - 1].cleared {
      m := ClearedWhileOpen(worlds, actions, n - 1, e);
    } else {
      m := n - 1;
    }
  }

  /** A turn and its committed row appear together or not at all. */
  lemma TurnAndCommitTogether(c: Chat, e: Entry, k: Key, now: int)
    requires k in c.rows && c.rows[k].status != Committed
    ensures var after := Record(c, e, Some(k), now);
            (|after.turns| > |c.turns| <==> k in after.rows && after.rows[k].status == Committed)
            && (after.turns == c.turns <==> after.rows == c.rows)
  {
    assert |c.turns + [NewTurn(c, e, Some(k), now)]| != |c.turns|;
  }

  // ------------------------------------------------------------------ what a late worker can do

  predicate Recent(t: Turn, now: int) {
    now <= Whole(t.at) + RETENTION
  }

  /** The test `commit` does not make: is the row it is about to overwrite a committed one, still retained? */
  predicate AlreadyCommitted(rows: map<Key, Row>, k: Key, now: int) {
    k in rows && rows[k].status == Committed && now <= rows[k].updatedAt + RETENTION
  }

  /**
   A commit is a second one within the retention exactly when it overwrites a retained committed
   row: so in every run in which no update takes a commit back, and one way in any run at all.
   Nothing is assumed about how punctual the workers are.
   */
  lemma SecondCommitOverwrites(worlds: seq<World>, actions: seq<Action>, n: nat, k: Key, now: int)
    requires Run(worlds, actions) && n <= |actions| && worlds[n].clock <= now
    ensures AlreadyCommitted(worlds[n].chat.rows, k, now) ==> exists t <- worlds[n].chat.turns :: FiledFor(t, k) && Recent(t, now)
    ensures UndoesNothing(worlds, actions) ==>
              (AlreadyCommitted(worlds[n].chat.rows, k, now)
               <==> exists t <- worlds[n].chat.turns :: FiledFor(t, k) && Recent(t, now))
  {
    hide Inv, Kept, Recent, Do, Allowed, UndoesNothing;
    RunKeepsInv(worlds, actions, n);
    if AlreadyCommitted(worlds[n].chat.rows, k, now) {
      CommittedMeansTurn(worlds[n], k, now);
    }
    if UndoesNothing(worlds, actions) {
      RunKeepsTurns(worlds, actions, n);
      forall i | 0 <= i < |worlds[n].chat.turns| && FiledFor(worlds[n].chat.turns[i], k) && Recent(worlds[n].chat.turns[i], now)
        ensures AlreadyCommitted(worlds[n].chat.rows, k, now)
      {
        TurnMeansCommitted(worlds[n], i, k, now);
      }
    }
  }

  lemma CommittedMeansTurn(w: World, k: Key, now: int)
    requires Inv(w) && AlreadyCommitted(w.chat.rows, k, now)
    ensures exists t <- w.chat.turns :: FiledFor(t, k) && Recent(t, now)
  {
    assert BackedBy(w.chat.rows[k], k, w.chat.turns);
    var t := w.chat.turns[w.chat.rows[k].message.value];
    assert t in w.chat.turns && FiledFor(t, k) && Recent(t, now);
  }

  lemma TurnMeansCommitted(w: World, i: nat, k: Key, now: int)
    requires Inv(w) && Kept(w) && w.clock <= now
    requires i < |w.chat.turns| && FiledFor(w.chat.turns[i], k) && Recent(w.chat.turns[i], now)
    ensures AlreadyCommitted(w.chat.rows, k, now)
  {
    WholeIsBelow(w.chat.turns[i].at, w.chat.turns[i].at);
    assert KeptAt(w.chat.rows, i, k) && BackedBy(w.chat.rows[k], k, w.chat.turns);
    WholeIsBelow(w.chat.turns[i].at, w.chat.turns[w.chat.rows[k].message.value].at);
  }

  /** A worker's real age is under its stored one by less than a second: fourteen minutes and fifty-nine seconds is safe. */
  lemma SafeAge(asked: int, now: int)
    requires asked <= now
    ensures now - asked <= STALE_IN_PROGRESS - 1000 ==> !Stale(Whole(asked), now)
    ensures !Stale(Whole(asked), now) <==> (now - asked) + asked % 1000 <= STALE_IN_PROGRESS
  {
  }

  /** Measured by its real age the rule is not enough: both workers below take under fifteen minutes, and both commit. */
  lemma SubSecondDoubleCommit(k: Key, e: Entry) returns (worlds: seq<World>, actions: seq<Action>)
    requires Plain(e)
    ensures actions == [Ask(k, 999, 999, 0), Proceed(0, 999), Ask(k, 900_001, 900_001, 0), Proceed(1, 900_001),
                        Answer(0, e, 900_002), Answer(1, e, 900_003)]
    ensures 900_002 - 999 < STALE_IN_PROGRESS && 900_003 - 900_001 < STALE_IN_PROGRESS
    ensures TestedRun(worlds, actions)
    ensures |worlds[6].chat.turns| == 2 && forall t <- worlds[6].chat.turns :: t.key == Some(k) && Recent(t, 900_003)
  {
    actions := [Ask(k, 999, 999, 0), Proceed(0, 999), Ask(k, 900_001, 900_001, 0), Proceed(1, 900_001),
                Answer(0, e, 900_002), Answer(1, e, 900_003)];
    hide Do, Allowed, Passes;
    var w1, w2 := FirstStamp(k);
    var w3, w4 := SecondStamp(w2, k);
    var w5, w6 := TwoAnswers(w4, k, e);
    worlds := [Start, w1, w2, w3, w4, w5, w6];
    assert forall i | 0 <= i < 6 :: Passes(worlds[i], actions[i]);
  }

  lemma FirstStamp(k: Key) returns (w1: World, w2: World)
    ensures Allowed(Start, Ask(k, 999, 999, 0)) && Passes(Start, Ask(k, 999, 999, 0)) && w1 == Do(Start, Ask(k, 999, 999, 0))
    ensures Allowed(w1, Proceed(0, 999)) && Passes(w1, Proceed(0, 999)) && w2 == Do(w1, Proceed(0, 999))
    ensures w2.chat == Chat(map[k := Row(InProgress, None, None, 0)], 0, [], []) && |w2.readers| == 1
    ensures w2.claims == [Claim(k, 0, Working)] && w2.clock == 999
  {
    w1 := Do(Start, Ask(k, 999, 999, 0));
    assert w1.readers == [Reader(k, 999, 999, false, false, false)] && w1.chat == Start.chat;
    w2 := Do(w1, Proceed(0, 999));
  }

  lemma SecondStamp(w2: World, k: Key) returns (w3: World, w4: World)
    requires w2.chat == Chat(map[k := Row(InProgress, None, None, 0)], 0, [], []) && |w2.readers| == 1
    requires w2.claims == [Claim(k, 0, Working)] && w2.clock == 999
    ensures var a := Ask(k, 900_001, 900_001, 0); Allowed(w2, a) && Passes(w2, a) && w3 == Do(w2, a)
    ensures Allowed(w3, Proceed(1, 900_001)) && Passes(w3, Proceed(1, 900_001)) && w4 == Do(w3, Proceed(1, 900_001))
    ensures w4.claims == [Claim(k, 0, Working), Claim(k, 900_000, Working)] && k in w4.chat.rows && w4.chat.turns == []
    ensures w4.clock == 900_001
  {
    w3 := Do(w2, Ask(k, 900_001, 900_001, 0));
    assert w3.readers[1] == Reader(k, 900_001, 900_001, false, true, false) && w3.chat == w2.chat;
    w4 := Do(w3, Proceed(1, 900_001));
  }

  lemma TwoAnswers(w4: World, k: Key, e: Entry) returns (w5: World, w6: World)
    requires w4.claims == [Claim(k, 0, Working), Claim(k, 900_000, Working)] && k in w4.chat.rows && w4.chat.turns == []
    requires Plain(e) && w4.clock == 900_001
    ensures Allowed(w4, Answer(0, e, 900_002)) && Passes(w4, Answer(0, e, 900_002)) && w5 == Do(w4, Answer(0, e, 900_002))
    ensures Allowed(w5, Answer(1, e, 900_003)) && Passes(w5, Answer(1, e, 900_003)) && w6 == Do(w5, Answer(1, e, 900_003))
    ensures |w6.chat.turns| == 2 && forall t <- w6.chat.turns :: t.key == Some(k) && Recent(t, 900_003)
  {
    w5 := Do(w4, Answer(0, e, 900_002));
    assert |w5.chat.turns| == 1;
    w6 := Do(w5, Answer(1, e, 900_003));
    assert |w6.chat.turns| == 2;
  }
}
