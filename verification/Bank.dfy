/** Issue and revoke requests of src/issuers/bank.ts, interleaved at every await over one
    credential store and one chain. */
module Bank {
  import opened Common

  datatype Kind = Checking | Savings | DebitCard

  function KindName(k: Kind): string {
    match k
    case Checking => "account.checking"
    case Savings => "account.savings"
    case DebitCard => "card.debit"
  }

  /** The label whose digest is the schema id of a kind. */
  function SchemaLabel(k: Kind): string {
    "eto.beckn.schema." + KindName(k) + ".v1"
  }

  /** The three labels; no two kinds share one. */
  lemma SchemaLabels(a: Kind, b: Kind)
    ensures SchemaLabel(Checking) == "eto.beckn.schema.account.checking.v1"
    ensures SchemaLabel(Savings) == "eto.beckn.schema.account.savings.v1"
    ensures SchemaLabel(DebitCard) == "eto.beckn.schema.card.debit.v1"
    ensures SchemaLabel(a) == SchemaLabel(b) ==> a == b
  {
    assert SchemaLabel(Checking)[17] == 'a' && SchemaLabel(Savings)[17] == 'a' && SchemaLabel(DebitCard)[17] == 'c';
    assert SchemaLabel(Checking)[25] == 'c' && SchemaLabel(Savings)[25] == 's';
  }

  datatype Key = Key(kind: Kind, binding: string)

  /** The key under which the store keeps a row. */
  function JoinedKey(k: Key): string {
    KindName(k.kind) + "\0" + k.binding
  }

  /** The NUL keeps kinds apart: rows are found under exactly their kind and binding. */
  lemma JoinedKeyInjective(a: Key, b: Key)
    requires JoinedKey(a) == JoinedKey(b)
    ensures a == b
  {
    var x, y, m, n := JoinedKey(a), JoinedKey(b), |KindName(a.kind)|, |KindName(b.kind)|;
    assert x[m] == '\0' && y[n] == '\0';
    assert forall i :: 0 <= i < m ==> x[i] == KindName(a.kind)[i];
    assert forall i :: 0 <= i < n ==> y[i] == KindName(b.kind)[i];
    KindNameHasNoNul(a.kind);
    KindNameHasNoNul(b.kind);
    assert m == n;
    assert KindName(a.kind) == x[..m] && KindName(b.kind) == y[..n];
    assert a.binding == x[m + 1..] && b.binding == y[n + 1..];
    KindNameInjective(a.kind, b.kind);
  }

  lemma KindNameHasNoNul(k: Kind)
    ensures forall i :: 0 <= i < |KindName(k)| ==> KindName(k)[i] != '\0'
  {
  }

  lemma KindNameInjective(a: Kind, b: Kind)
    requires KindName(a) == KindName(b)
    ensures a == b
  {
    assert KindName(Checking)[8] == 'c' && KindName(Savings)[8] == 's' && KindName(DebitCard)[0] == 'c';
    assert KindName(Checking)[0] == 'a' && KindName(Savings)[0] == 'a';
  }

  // ----- the store -----

  /** Whether a credential is revoked; marker is the request that recorded it. */
  datatype Revocation = Active | Revoked(at: int, tx: string, marker: nat)

  /** A stored credential; writer is the request that stored it. */
  datatype Row = Row(card: string, pda: string, tx: string, uri: string, issuedAt: int, status: Revocation, writer: nat)

  function PutIfAbsent(rows: map<Key, Row>, k: Key, row: Row): map<Key, Row> {
    if k in rows then rows else rows[k := row]
  }

  /** A row that is already revoked is left as it is. */
  function MarkRevoked(rows: map<Key, Row>, k: Key, status: Revocation): map<Key, Row>
    requires k in rows
  {
    if rows[k].status.Revoked? then rows else rows[k := rows[k].(status := status)]
  }

  class IssuerStore {
    var rows: map<Key, Row>

    constructor ()
      ensures rows == map[]
    {
      rows := map[];
    }

    method Get(k: Key) returns (r: Option<Row>)
      ensures r == if k in rows then Some(rows[k]) else None
    {
      return if k in rows then Some(rows[k]) else None;
    }

    /** The winner is the row that is stored afterwards. */
    method DoPutIfAbsent(k: Key, row: Row) returns (winner: Row)
      modifies this
      ensures rows == PutIfAbsent(old(rows), k, row) && k in rows && winner == rows[k]
    {
      if k in rows {
        return rows[k];
      }
      rows := rows[k := row];
      return row;
    }

    /** An unknown key is an error and changes nothing. */
    method DoMarkRevoked(k: Key, at: int, tx: string, marker: nat) returns (r: Option<Row>)
      modifies this
      ensures k !in old(rows) ==> r == None && rows == old(rows)
      ensures k in old(rows) ==> rows == MarkRevoked(old(rows), k, Revoked(at, tx, marker)) && r == Some(rows[k])
    {
      if k !in rows {
        return None;
      }
      var existing := rows[k];
      if existing.status.Revoked? {
        return Some(existing);
      }
      var updated := existing.(status := Revoked(at, tx, marker));
      rows := rows[k := updated];
      return Some(updated);
    }
  }

  // ----- requests -----

  datatype Request =
    | IssueTo(key: Key, card: string)
    | RevokeOf(key: Key)

  datatype Failure = InvalidRequest | BindingConflict | NotFound | Aborted | ChainFailed | UnknownRow

  datatype Reply =
    | Issued(pda: string, tx: string, uri: string)
    | Idempotent(pda: string, tx: string, uri: string)
    | AlreadyRevoked(pda: string, tx: string)
    | RevokedNow(pda: string, tx: string)
    | Rejected(failure: Failure)

  datatype Point =
    | Received
    | Looked(seen: Option<Row>)
    | Pinned(uri: string)
    | Slotted(pinned: string)
    | OnChain(own: Row)
    | Settled(mine: Row, winner: Row)
    | RevokedOnChain(pda: string, tx: string)
    | Finished(reply: Reply)

  datatype Process = Process(request: Request, point: Point)

  /** Successful transactions, with the request that submitted them. */
  datatype Transaction =
    | IssueTx(key: Key, schema: string, card: string, pda: string, tx: string, uri: string, issuer: nat)
    | RevokeTx(revokedPda: string, revokeTx: string, revoker: nat)

  datatype World = World(rows: map<Key, Row>, processes: map<nat, Process>, chain: seq<Transaction>)

  /** What the awaited dependency answers. */
  datatype Answer = Answer(ok: bool, uri: string, pda: string, tx: string, now: int)

  datatype Event = Start(id: nat, request: Request) | Advance(pid: nat, answer: Answer)

  predicate Enabled(w: World, e: Event) {
    match e
    case Start(id, _) => id !in w.processes
    case Advance(pid, _) => pid in w.processes && !w.processes[pid].point.Finished?
  }

  function Moved(w: World, pid: nat, p: Point): World
    requires pid in w.processes
  {
    w.(processes := w.processes[pid := w.processes[pid].(point := p)])
  }

  function Fail(w: World, pid: nat, f: Failure): World
    requires pid in w.processes
  {
    Moved(w, pid, Finished(Rejected(f)))
  }

  function Lookup(w: World, k: Key): Option<Row> {
    if k in w.rows then Some(w.rows[k]) else None
  }

  predicate WellFormed(r: Request) {
    |r.key.binding| > 0 && (r.IssueTo? ==> |r.card| > 0)
  }

  /** The reply once the store has named the winner. */
  function Settle(card: string, own: Row, winner: Row): Reply {
    if winner.card != card then Rejected(BindingConflict)
    else if winner.pda != own.pda then Idempotent(winner.pda, winner.tx, winner.uri)
    else Issued(own.pda, own.tx, own.uri)
  }

  function IssueStep(w: World, pid: nat, a: Answer): World
    requires pid in w.processes && w.processes[pid].request.IssueTo?
  {
    var r, point := w.processes[pid].request, w.processes[pid].point;
    match point
    case Received => if WellFormed(r) then Moved(w, pid, Looked(Lookup(w, r.key))) else Fail(w, pid, InvalidRequest)
    case Looked(Some(row)) =>
      if row.card != r.card then Fail(w, pid, BindingConflict)
      else Moved(w, pid, Finished(Idempotent(row.pda, row.tx, row.uri)))
    case Looked(None) => if a.ok then Moved(w, pid, Pinned(a.uri)) else Fail(w, pid, Aborted)
    case Pinned(uri) => if a.ok then Moved(w, pid, Slotted(uri)) else Fail(w, pid, Aborted)
    case Slotted(uri) =>
      if a.ok then
        Moved(w, pid, OnChain(Row(r.card, a.pda, a.tx, uri, a.now, Active, pid)))
          .(chain := w.chain + [IssueTx(r.key, SchemaLabel(r.key.kind), r.card, a.pda, a.tx, uri, pid)])
      else Fail(w, pid, ChainFailed)
    case OnChain(row) =>
      var rows := PutIfAbsent(w.rows, r.key, row);
      Moved(w, pid, Settled(row, rows[r.key])).(rows := rows)
    case Settled(own, winner) => Moved(w, pid, Finished(Settle(r.card, own, winner)))
    case RevokedOnChain(_, _) => w
    case Finished(_) => w
  }

  function RevokeStep(w: World, pid: nat, a: Answer): World
    requires pid in w.processes && w.processes[pid].request.RevokeOf?
  {
    var r, point := w.processes[pid].request, w.processes[pid].point;
    match point
    case Received => if WellFormed(r) then Moved(w, pid, Looked(Lookup(w, r.key))) else Fail(w, pid, InvalidRequest)
    case Looked(None) => Fail(w, pid, NotFound)
    case Looked(Some(row)) =>
      if row.status.Revoked? then Moved(w, pid, Finished(AlreadyRevoked(row.pda, row.status.tx)))
      else if a.ok then
        Moved(w, pid, RevokedOnChain(row.pda, a.tx)).(chain := w.chain + [RevokeTx(row.pda, a.tx, pid)])
      else Fail(w, pid, ChainFailed)
    case RevokedOnChain(pda, tx) =>
      if r.key !in w.rows then Fail(w, pid, UnknownRow)
      else Moved(w, pid, Finished(RevokedNow(pda, tx))).(rows := MarkRevoked(w.rows, r.key, Revoked(a.now, tx, pid)))
    case _ => w
  }

  function Step(w: World, e: Event): World
    requires Enabled(w, e)
  {
    match e
    case Start(id, r) => w.(processes := w.processes[id := Process(r, Received)])
    case Advance(pid, a) => if w.processes[pid].request.IssueTo? then IssueStep(w, pid, a) else RevokeStep(w, pid, a)
  }

  ghost predicate CanRun(w: World, es: seq<Event>)
    decreases |es|
  {
    |es| == 0 || (Enabled(w, es[0]) && CanRun(Step(w, es[0]), es[1..]))
  }

  ghost function Run(w: World, es: seq<Event>): World
    requires CanRun(w, es)
    decreases |es|
  {
    if |es| == 0 then w else Run(Step(w, es[0]), es[1..])
  }

  const EMPTY: World := World(map[], map[], [])

  // ----- how rows evolve -----

  /** A row keeps everything but its status, and a revocation is final. */
  predicate Evolves(row: Row, row': Row) {
    row'.(status := row.status) == row && (row.status.Revoked? ==> row'.status == row.status)
  }

  ghost predicate Extends(w': World, w: World) {
    && (forall k :: k in w.rows ==> k in w'.rows && Evolves(w.rows[k], w'.rows[k]))
    && w.chain <= w'.chain
    && (forall pid :: pid in w.processes ==>
                      pid in w'.processes && w'.processes[pid].request == w.processes[pid].request)
    && (forall pid :: pid in w.processes && w.processes[pid].point.Finished? ==> w'.processes[pid] == w.processes[pid])
  }

  lemma IssueExtends(w: World, pid: nat, a: Answer)
    requires Enabled(w, Advance(pid, a)) && w.processes[pid].request.IssueTo?
    ensures Extends(IssueStep(w, pid, a), w)
  {
  }

  lemma RevokeExtends(w: World, pid: nat, a: Answer)
    requires Enabled(w, Advance(pid, a)) && w.processes[pid].request.RevokeOf?
    ensures Extends(RevokeStep(w, pid, a), w)
  {
  }

  lemma StepExtends(w: World, e: Event)
    requires Enabled(w, e)
    ensures Extends(Step(w, e), w)
  {
    if e.Advance? {
      if w.processes[e.pid].request.IssueTo? {
        IssueExtends(w, e.pid, e.answer);
      } else {
        RevokeExtends(w, e.pid, e.answer);
      }
    }
  }

  // ----- the invariant -----

  /** What a request saw was the row of its key, up to later revocation. */
  ghost predicate Saw(w: World, k: Key, row: Row) {
    k in w.rows && Evolves(row, w.rows[k])
  }

  ghost predicate IssuedOnChain(w: World, k: Key, row: Row) {
    IssueTx(k, SchemaLabel(k.kind), row.card, row.pda, row.tx, row.uri, row.writer) in w.chain
  }

  ghost predicate ProcessOk(w: World, pid: nat, p: Process) {
    var k := p.request.key;
    match p.point
    case Looked(seen) => WellFormed(p.request) && (seen.Some? ==> Saw(w, k, seen.value))
    case OnChain(row) => p.request.IssueTo? && OwnRow(w, pid, p.request, row)
    case Settled(row, winner) =>
      p.request.IssueTo? && OwnRow(w, pid, p.request, row) && Saw(w, k, winner)
      && (winner.writer == pid ==> winner == row)
    case RevokedOnChain(pda, tx) =>
      && WellFormed(p.request) && p.request.RevokeOf? && k in w.rows && w.rows[k].pda == pda
      && RevokeTx(pda, tx, pid) in w.chain
    case Finished(reply) => ReplyOk(w, pid, p.request, reply)
    case Received => true
    case _ => p.request.IssueTo? && WellFormed(p.request)
  }

  ghost predicate OwnRow(w: World, pid: nat, r: Request, row: Row)
    requires r.IssueTo?
  {
    WellFormed(r) && row.writer == pid && row.card == r.card && row.status.Active? && IssuedOnChain(w, r.key, row)
  }

  /** A successful reply names the PDA of the row, which is bound to the caller's card; an
      idempotent one is the row, an issued one is the writer's row or a second transaction of
      the same PDA. */
  ghost predicate ReplyOk(w: World, pid: nat, r: Request, reply: Reply) {
    match reply
    case Idempotent(pda, tx, uri) =>
      r.IssueTo? && r.key in w.rows && w.rows[r.key].card == r.card
      && pda == w.rows[r.key].pda && tx == w.rows[r.key].tx && uri == w.rows[r.key].uri
    case Issued(pda, tx, uri) =>
      && r.IssueTo? && r.key in w.rows && w.rows[r.key].card == r.card && pda == w.rows[r.key].pda
      && IssueTx(r.key, SchemaLabel(r.key.kind), r.card, pda, tx, uri, pid) in w.chain
      && (w.rows[r.key].writer == pid ==> tx == w.rows[r.key].tx && uri == w.rows[r.key].uri)
    case AlreadyRevoked(pda, tx) =>
      r.RevokeOf? && r.key in w.rows && pda == w.rows[r.key].pda
      && w.rows[r.key].status.Revoked? && w.rows[r.key].status.tx == tx
    case RevokedNow(pda, tx) =>
      r.RevokeOf? && r.key in w.rows && pda == w.rows[r.key].pda && w.rows[r.key].status.Revoked?
      && RevokeTx(pda, tx, pid) in w.chain && (w.rows[r.key].status.marker == pid ==> w.rows[r.key].status.tx == tx)
    case Rejected(f) =>
      && f != UnknownRow && (f == NotFound ==> r.RevokeOf?)
      && (f == InvalidRequest <==> |r.key.binding| == 0 || (r.IssueTo? && |r.card| == 0))
      && (f == BindingConflict ==> r.IssueTo? && r.key in w.rows && w.rows[r.key].card != r.card)
  }

  ghost predicate RowOk(w: World, k: Key)
    requires k in w.rows
  {
    var row := w.rows[k];
    && IssuedOnChain(w, k, row) && row.writer in w.processes
    && (w.processes[row.writer].point.Settled? || w.processes[row.writer].point.Finished?)
    && (row.status.Revoked? ==> MarkOk(w, row.pda, row.status))
  }

  /** A revocation was recorded by a finished request, with its own transaction. */
  ghost predicate MarkOk(w: World, pda: string, s: Revocation)
    requires s.Revoked?
  {
    RevokeTx(pda, s.tx, s.marker) in w.chain && s.marker in w.processes && w.processes[s.marker].point.Finished?
  }

  ghost predicate Inv(w: World) {
    && (forall k :: k in w.rows ==> RowOk(w, k))
    && (forall pid :: pid in w.processes ==> ProcessOk(w, pid, w.processes[pid]))
  }

  lemma ProcessStable(w: World, w': World, pid: nat, p: Process)
    requires ProcessOk(w, pid, p) && Extends(w', w)
    ensures ProcessOk(w', pid, p)
  {
  }

  lemma IssuerMoves(w: World, pid: nat, a: Answer)
    requires Inv(w) && Enabled(w, Advance(pid, a)) && w.processes[pid].request.IssueTo?
    ensures var w' := IssueStep(w, pid, a); ProcessOk(w', pid, w'.processes[pid])
  {
    assert ProcessOk(w, pid, w.processes[pid]);
    var k := w.processes[pid].request.key;
    if k in w.rows { assert RowOk(w, k); }
  }

  lemma RevokerMoves(w: World, pid: nat, a: Answer)
    requires Inv(w) && Enabled(w, Advance(pid, a)) && w.processes[pid].request.RevokeOf?
    ensures var w' := RevokeStep(w, pid, a); ProcessOk(w', pid, w'.processes[pid])
  {
    assert ProcessOk(w, pid, w.processes[pid]);
    if w.processes[pid].point.RevokedOnChain? { RevokerMarks(w, pid, a); }
  }

  lemma RevokerMarks(w: World, pid: nat, a: Answer)
    requires Inv(w) && pid in w.processes && w.processes[pid].request.RevokeOf?
    requires w.processes[pid].point.RevokedOnChain?
    ensures var w' := RevokeStep(w, pid, a); ProcessOk(w', pid, w'.processes[pid])
  {
    assert ProcessOk(w, pid, w.processes[pid]);
    assert RowOk(w, w.processes[pid].request.key);
  }

  lemma MoverOk(w: World, pid: nat, a: Answer)
    requires Inv(w) && Enabled(w, Advance(pid, a))
    ensures var w' := Step(w, Advance(pid, a)); ProcessOk(w', pid, w'.processes[pid])
  {
    if w.processes[pid].request.IssueTo? { IssuerMoves(w, pid, a); } else { RevokerMoves(w, pid, a); }
  }

  predicate IsDone(p: Point) {
    p.Settled? || p.Finished?
  }

  /** Requests that are done stay done. */
  ghost predicate StillDone(w: World, w': World) {
    && (forall q :: q in w.processes && IsDone(w.processes[q].point) ==>
                      q in w'.processes && IsDone(w'.processes[q].point))
    && (forall q :: q in w.processes && w.processes[q].point.Finished? ==>
                      q in w'.processes && w'.processes[q].point.Finished?)
  }

  lemma RowKept(w: World, w': World, k: Key)
    requires k in w.rows && RowOk(w, k) && k in w'.rows && w'.rows[k] == w.rows[k]
    requires w.chain <= w'.chain && StillDone(w, w')
    ensures RowOk(w', k)
  {
    assert forall x :: x in w.chain ==> x in w'.chain;
  }

  lemma RowMarked(w: World, w': World, k: Key, s: Revocation)
    requires k in w.rows && RowOk(w, k) && k in w'.rows && w'.rows[k] == w.rows[k].(status := s)
    requires w.chain <= w'.chain && StillDone(w, w') && s.Revoked? && MarkOk(w', w.rows[k].pda, s)
    ensures RowOk(w', k)
  {
    assert forall x :: x in w.chain ==> x in w'.chain;
  }

  lemma IssueEffect(w: World, pid: nat, a: Answer)
    requires Enabled(w, Advance(pid, a)) && w.processes[pid].request.IssueTo?
    ensures var w' := IssueStep(w, pid, a);
            && w.chain <= w'.chain && StillDone(w, w')
            && (forall k :: k in w.rows ==> k in w'.rows && w'.rows[k] == w.rows[k])
  {
  }

  lemma RevokeEffect(w: World, pid: nat, a: Answer)
    requires Enabled(w, Advance(pid, a)) && w.processes[pid].request.RevokeOf?
    ensures var w' := RevokeStep(w, pid, a);
            && w.chain <= w'.chain && StillDone(w, w') && w'.rows.Keys == w.rows.Keys
            && (forall k :: k in w.rows && w'.rows[k] != w.rows[k] ==>
                  && k == w.processes[pid].request.key && w.processes[pid].point.RevokedOnChain?
                  && w'.processes[pid].point.Finished?
                  && w'.rows[k] == w.rows[k].(status := Revoked(a.now, w.processes[pid].point.tx, pid)))
  {
  }

  /** Issuing leaves every stored row alone. */
  lemma IssueOldRow(w: World, pid: nat, a: Answer, k: Key)
    requires Inv(w) && Enabled(w, Advance(pid, a)) && w.processes[pid].request.IssueTo? && k in w.rows
    ensures k in IssueStep(w, pid, a).rows && RowOk(IssueStep(w, pid, a), k)
  {
    IssueEffect(w, pid, a);
    assert RowOk(w, k);
    RowKept(w, IssueStep(w, pid, a), k);
  }

  lemma RevokeOldRow(w: World, pid: nat, a: Answer, k: Key)
    requires Inv(w) && Enabled(w, Advance(pid, a)) && w.processes[pid].request.RevokeOf? && k in w.rows
    ensures k in RevokeStep(w, pid, a).rows && RowOk(RevokeStep(w, pid, a), k)
  {
    var w' := RevokeStep(w, pid, a);
    RevokeEffect(w, pid, a);
    assert RowOk(w, k) && ProcessOk(w, pid, w.processes[pid]);
    if w'.rows[k] == w.rows[k] {
      RowKept(w, w', k);
    } else {
      RowMarked(w, w', k, w'.rows[k].status);
    }
  }

  lemma OldRowOk(w: World, e: Event, k: Key)
    requires Inv(w) && Enabled(w, e) && k in w.rows
    ensures k in Step(w, e).rows && RowOk(Step(w, e), k)
  {
    match e
    case Start(_, _) => assert RowOk(w, k);
    case Advance(pid, a) =>
      if w.processes[pid].request.IssueTo? { IssueOldRow(w, pid, a, k); } else { RevokeOldRow(w, pid, a, k); }
  }

  lemma NewRowOk(w: World, e: Event, k: Key)
    requires Inv(w) && Enabled(w, e) && k !in w.rows && k in Step(w, e).rows
    ensures RowOk(Step(w, e), k)
  {
    assert e.Advance? && ProcessOk(w, e.pid, w.processes[e.pid]);
  }

  lemma RowsOk(w: World, e: Event, k: Key)
    requires Inv(w) && Enabled(w, e) && k in Step(w, e).rows
    ensures RowOk(Step(w, e), k)
  {
    if k in w.rows { OldRowOk(w, e, k); } else { NewRowOk(w, e, k); }
  }

  lemma ProcessesOk(w: World, e: Event, q: nat)
    requires Inv(w) && Enabled(w, e) && q in Step(w, e).processes
    ensures ProcessOk(Step(w, e), q, Step(w, e).processes[q])
  {
    if e.Advance? && q == e.pid {
      MoverOk(w, e.pid, e.answer);
    } else if q in w.processes {
      OtherOk(w, e, q);
    }
  }

  lemma OtherOk(w: World, e: Event, q: nat)
    requires Inv(w) && Enabled(w, e) && q in w.processes && (e.Advance? ==> q != e.pid)
    ensures q in Step(w, e).processes && ProcessOk(Step(w, e), q, Step(w, e).processes[q])
  {
    StepExtends(w, e);
    OtherUntouched(w, e, q);
    ProcessStable(w, Step(w, e), q, w.processes[q]);
  }

  lemma StepOk(w: World, e: Event)
    requires Inv(w) && Enabled(w, e)
    ensures Inv(Step(w, e))
  {
    forall k | k in Step(w, e).rows ensures RowOk(Step(w, e), k) {
      RowsOk(w, e, k);
    }
    forall q | q in Step(w, e).processes ensures ProcessOk(Step(w, e), q, Step(w, e).processes[q]) {
      ProcessesOk(w, e, q);
    }
  }

  lemma ExtendsTransitive(a: World, b: World, c: World)
    requires Extends(b, a) && Extends(c, b)
    ensures Extends(c, a)
  {
  }

  lemma {:induction false} RunOk(w: World, es: seq<Event>)
    requires Inv(w) && CanRun(w, es)
    ensures Inv(Run(w, es)) && Extends(Run(w, es), w)
    decreases |es|
  {
    if |es| > 0 {
      StepOk(w, es[0]);
      StepExtends(w, es[0]);
      RunOk(Step(w, es[0]), es[1..]);
      ExtendsTransitive(w, Step(w, es[0]), Run(w, es));
    }
  }

  /** The row that a successful transaction leads to records what was asked for and answered. */
  lemma SubmissionRecorded(w: World, pid: nat, a: Answer)
    requires Enabled(w, Advance(pid, a)) && w.processes[pid].point.Slotted? && w.processes[pid].request.IssueTo? && a.ok
    ensures var r, uri, w' := w.processes[pid].request, w.processes[pid].point.pinned, Step(w, Advance(pid, a));
            && w'.processes[pid].point == OnChain(Row(r.card, a.pda, a.tx, uri, a.now, Active, pid))
            && w'.chain == w.chain + [IssueTx(r.key, SchemaLabel(r.key.kind), r.card, a.pda, a.tx, uri, pid)]
            && w'.rows == w.rows
  {
  }

  /** A dependency that fails leaves every row and the chain as they were. */
  lemma FailureChangesNothing(w: World, pid: nat, a: Answer)
    requires Inv(w) && Enabled(w, Advance(pid, a)) && !a.ok
    requires w.processes[pid].point.Looked? || w.processes[pid].point.Pinned? || w.processes[pid].point.Slotted?
    ensures Step(w, Advance(pid, a)).rows == w.rows && Step(w, Advance(pid, a)).chain == w.chain
    ensures var reply := Step(w, Advance(pid, a)).processes[pid].point;
            && reply.Finished?
            && (w.processes[pid].point.Slotted? ==> reply == Finished(Rejected(ChainFailed)))
            && (w.processes[pid].point.Pinned? ==> reply == Finished(Rejected(Aborted)))
            && (w.processes[pid].point == Looked(None) ==>
                  reply == Finished(Rejected(if w.processes[pid].request.IssueTo? then Aborted else NotFound)))
  {
    assert ProcessOk(w, pid, w.processes[pid]);
  }

  // ----- what every interleaving keeps -----

  lemma {:induction false} RunSplit(w: World, es: seq<Event>, n: nat)
    requires CanRun(w, es) && n <= |es|
    ensures CanRun(w, es[..n]) && CanRun(Run(w, es[..n]), es[n..]) && Run(Run(w, es[..n]), es[n..]) == Run(w, es)
    decreases n
  {
    if n == 0 {
      assert es[..0] == [] && es[0..] == es;
    } else {
      RunSplit(Step(w, es[0]), es[1..], n - 1);
      assert es[..n][0] == es[0] && es[..n][1..] == es[1..][..n - 1] && es[1..][n - 1..] == es[n..];
    }
  }

  /** From any point of a run to its end: a row keeps its card, PDA, transaction and claim, goes
      from active to revoked at most once and then keeps its revocation, and is always backed by
      a successful transaction for its card under the schema of its kind. */
  lemma RowsOverRuns(es: seq<Event>, n: nat, k: Key)
    requires CanRun(EMPTY, es) && n <= |es| && CanRun(EMPTY, es[..n]) && k in Run(EMPTY, es[..n]).rows
    ensures k in Run(EMPTY, es).rows && Evolves(Run(EMPTY, es[..n]).rows[k], Run(EMPTY, es).rows[k])
    ensures RowOk(Run(EMPTY, es), k)
  {
    RunSplit(EMPTY, es, n);
    RunOk(EMPTY, es[..n]);
    RunOk(Run(EMPTY, es[..n]), es[n..]);
  }

  /** A reply given at any point is still right at the end: see ReplyOk. */
  lemma RepliesOverRuns(es: seq<Event>, n: nat, pid: nat)
    requires CanRun(EMPTY, es) && n <= |es| && CanRun(EMPTY, es[..n])
    requires pid in Run(EMPTY, es[..n]).processes && Run(EMPTY, es[..n]).processes[pid].point.Finished?
    ensures pid in Run(EMPTY, es).processes && Run(EMPTY, es).processes[pid] == Run(EMPTY, es[..n]).processes[pid]
    ensures var w := Run(EMPTY, es); ReplyOk(w, pid, w.processes[pid].request, w.processes[pid].point.reply)
  {
    RunSplit(EMPTY, es, n);
    RunOk(EMPTY, es[..n]);
    RunOk(Run(EMPTY, es[..n]), es[n..]);
    assert ProcessOk(Run(EMPTY, es), pid, Run(EMPTY, es).processes[pid]);
  }

  ghost predicate Answered(w: World, pid: nat) {
    pid in w.processes && w.processes[pid].request.IssueTo? && w.processes[pid].point.Finished?
    && (w.processes[pid].point.reply.Issued? || w.processes[pid].point.reply.Idempotent?)
  }

  /** Successful issue requests for one key converge on its PDA and card. */
  lemma CallersConverge(es: seq<Event>, p: nat, q: nat)
    requires CanRun(EMPTY, es) && Answered(Run(EMPTY, es), p) && Answered(Run(EMPTY, es), q)
    requires Run(EMPTY, es).processes[p].request.key == Run(EMPTY, es).processes[q].request.key
    ensures var w := Run(EMPTY, es);
            && w.processes[p].point.reply.pda == w.processes[q].point.reply.pda
            && w.processes[p].request.card == w.processes[q].request.card
  {
    RunOk(EMPTY, es);
    var w := Run(EMPTY, es);
    assert ProcessOk(w, p, w.processes[p]);
    assert ProcessOk(w, q, w.processes[q]);
  }

  /** What became of a request whose transaction x was successful: it holds x until the store
      answers, and then tells x if and only if the row has the PDA of x, its own or not. */
  ghost predicate SubmitterOk(w: World, x: Transaction)
    requires x.IssueTx?
  {
    && x.issuer in w.processes
    && var p := w.processes[x.issuer];
       && p.request == IssueTo(x.key, x.card)
       && match p.point
          case OnChain(own) => Records(own, x)
          case Settled(own, winner) => Records(own, x) && Saw(w, x.key, winner)
          case Finished(Issued(pda, tx, uri)) => pda == x.pda && tx == x.tx && uri == x.uri
          case Finished(Idempotent(_, _, _)) => x.key in w.rows && w.rows[x.key].pda != x.pda
          case Finished(Rejected(_)) => true
          case _ => false
  }

  predicate Records(own: Row, x: Transaction)
    requires x.IssueTx?
  {
    own.pda == x.pda && own.tx == x.tx && own.uri == x.uri
  }

  ghost predicate ChainOk(w: World) {
    && (forall x :: x in w.chain && x.IssueTx? ==> SubmitterOk(w, x))
    && (forall x :: x in w.chain && x.RevokeTx? ==> RevokerOk(w, x))
  }

  /** A request whose revocation was successful is past that point. */
  ghost predicate RevokerOk(w: World, x: Transaction)
    requires x.RevokeTx?
  {
    && x.revoker in w.processes && w.processes[x.revoker].request.RevokeOf?
    && (w.processes[x.revoker].point.RevokedOnChain? || w.processes[x.revoker].point.Finished?)
  }

  lemma RevokerStep(w: World, e: Event, x: Transaction)
    requires Enabled(w, e) && x.RevokeTx? && RevokerOk(w, x)
    ensures RevokerOk(Step(w, e), x)
  {
    if e.Start? || e.pid != x.revoker { OtherUntouched(w, e, x.revoker); }
  }

  lemma NewRevocationOk(w: World, e: Event, x: Transaction)
    requires Enabled(w, e) && x.RevokeTx? && x in Step(w, e).chain && x !in w.chain
    ensures RevokerOk(Step(w, e), x)
  {
  }

  lemma SubmitterStable(w: World, w': World, x: Transaction)
    requires x.IssueTx? && SubmitterOk(w, x) && Extends(w', w)
    requires x.issuer in w'.processes && w'.processes[x.issuer] == w.processes[x.issuer]
    ensures SubmitterOk(w', x)
  {
  }

  lemma SubmitterMoves(w: World, x: Transaction, a: Answer)
    requires x.IssueTx? && SubmitterOk(w, x) && Enabled(w, Advance(x.issuer, a))
    ensures SubmitterOk(Step(w, Advance(x.issuer, a)), x)
  {
  }

  lemma SubmitterStep(w: World, e: Event, x: Transaction)
    requires Enabled(w, e) && x.IssueTx? && SubmitterOk(w, x)
    ensures SubmitterOk(Step(w, e), x)
  {
    if e.Advance? && e.pid == x.issuer {
      SubmitterMoves(w, x, e.answer);
    } else {
      StepExtends(w, e);
      OtherUntouched(w, e, x.issuer);
      SubmitterStable(w, Step(w, e), x);
    }
  }

  lemma NewTransactionOk(w: World, e: Event, x: Transaction)
    requires Enabled(w, e) && x.IssueTx? && x in Step(w, e).chain && x !in w.chain
    ensures SubmitterOk(Step(w, e), x)
  {
  }

  lemma {:induction false} RunChainOk(w: World, es: seq<Event>)
    requires ChainOk(w) && CanRun(w, es)
    ensures ChainOk(Run(w, es))
    decreases |es|
  {
    if |es| > 0 {
      var e := es[0];
      forall x | x in Step(w, e).chain && x.IssueTx? ensures SubmitterOk(Step(w, e), x) {
        if x in w.chain { SubmitterStep(w, e, x); } else { NewTransactionOk(w, e, x); }
      }
      forall x | x in Step(w, e).chain && x.RevokeTx? ensures RevokerOk(Step(w, e), x) {
        if x in w.chain { RevokerStep(w, e, x); } else { NewRevocationOk(w, e, x); }
      }
      RunChainOk(Step(w, e), es[1..]);
    }
  }

  /** The reply carries the transaction and the claim of the row. */
  ghost predicate TellsRow(w: World, p: nat, k: Key) {
    Answered(w, p) && w.processes[p].request.key == k && k in w.rows
    && w.processes[p].point.reply.tx == w.rows[k].tx && w.processes[p].point.reply.uri == w.rows[k].uri
  }

  /** A transaction for the key, of the row's PDA but not the one that the row records. */
  ghost predicate Twin(w: World, k: Key, x: Transaction) {
    && x.IssueTx? && x in w.chain && x.key == k && k in w.rows && x.pda == w.rows[k].pda
    && (x.tx != w.rows[k].tx || x.uri != w.rows[k].uri)
  }

  /** An answered request tells something other than the row exactly if its own transaction got
      the row's PDA with another signature or claim. */
  lemma TellsRowIff(es: seq<Event>, p: nat)
    requires CanRun(EMPTY, es) && Answered(Run(EMPTY, es), p)
    ensures var w := Run(EMPTY, es);
            var k := w.processes[p].request.key;
            TellsRow(w, p, k) <==> !exists x :: Twin(w, k, x) && x.issuer == p
  {
    RunOk(EMPTY, es);
    RunChainOk(EMPTY, es);
    var w := Run(EMPTY, es);
    var r, reply := w.processes[p].request, w.processes[p].point.reply;
    assert ProcessOk(w, p, w.processes[p]);
    if reply.Issued? {
      var own := IssueTx(r.key, SchemaLabel(r.key.kind), r.card, reply.pda, reply.tx, reply.uri, p);
      assert own in w.chain;
      assert !TellsRow(w, p, r.key) ==> Twin(w, r.key, own);
    }
    forall x | Twin(w, r.key, x) && x.issuer == p ensures !TellsRow(w, p, r.key) {
      assert SubmitterOk(w, x);
    }
  }

  ghost predicate AnsweredFor(w: World, p: nat, k: Key) {
    Answered(w, p) && w.processes[p].request.key == k
  }

  /** Convergence on the transaction and the claim too, exactly: in every reachable world all
      successful issue replies for a key carry those of its row if and only if no answered
      request's own transaction for the key has the row's PDA with another signature or claim. */
  lemma CallersConvergeFully(es: seq<Event>, k: Key)
    requires CanRun(EMPTY, es)
    ensures var w := Run(EMPTY, es);
            (forall p :: AnsweredFor(w, p, k) ==> TellsRow(w, p, k))
            <==> !exists x :: Twin(w, k, x) && AnsweredFor(w, x.issuer, k)
  {
    var w := Run(EMPTY, es);
    forall p | AnsweredFor(w, p, k)
      ensures TellsRow(w, p, k) <==> !exists x :: Twin(w, k, x) && x.issuer == p
    {
      TellsRowIff(es, p);
    }
    if x :| Twin(w, k, x) && AnsweredFor(w, x.issuer, k) {
      assert !TellsRow(w, x.issuer, k);
    }
  }

  // ----- repeated requests -----

  /** What a request made after the row was stored, or after it was revoked, is told. */
  function RepeatReply(r: Request, row: Row): Reply
    requires r.RevokeOf? ==> row.status.Revoked?
  {
    match r
    case IssueTo(_, card) =>
      if row.card != card then Rejected(BindingConflict) else Idempotent(row.pda, row.tx, row.uri)
    case RevokeOf(_) => AlreadyRevoked(row.pda, row.status.tx)
  }

  /** The work of the request was done before it looked. */
  ghost predicate Repeats(w: World, pid: nat) {
    && pid in w.processes
    && var r, point := w.processes[pid].request, w.processes[pid].point;
       && WellFormed(r) && r.key in w.rows && (r.RevokeOf? ==> w.rows[r.key].status.Revoked?)
       && match point
          case Received => true
          case Looked(seen) => seen.Some? && SeenAs(r, seen.value, w.rows[r.key])
          case Finished(reply) => reply == RepeatReply(r, w.rows[r.key])
          case _ => false
  }

  ghost predicate SeenAs(r: Request, seen: Row, row: Row) {
    Evolves(seen, row) && (r.RevokeOf? ==> seen.status == row.status)
  }

  lemma RepeatOwnStep(w: World, pid: nat, a: Answer)
    requires Repeats(w, pid) && Enabled(w, Advance(pid, a))
    ensures var w' := Step(w, Advance(pid, a)); Repeats(w', pid) && w'.chain == w.chain && w'.rows == w.rows
  {
  }

  lemma RepeatOtherStep(w: World, e: Event, pid: nat)
    requires Repeats(w, pid) && Enabled(w, e) && (e.Advance? ==> e.pid != pid)
    ensures Repeats(Step(w, e), pid)
  {
    StepExtends(w, e);
    OtherUntouched(w, e, pid);
  }

  lemma OtherUntouched(w: World, e: Event, pid: nat)
    requires pid in w.processes && Enabled(w, e) && (e.Advance? ==> e.pid != pid)
    ensures pid in Step(w, e).processes && Step(w, e).processes[pid] == w.processes[pid]
  {
  }

  /** Whatever else runs, a repeated request keeps off the chain and the store: each of its
      steps leaves both as they are, and the one reply it can get is the row's. */
  lemma {:induction false} RepeatRuns(w: World, es: seq<Event>, pid: nat)
    requires Repeats(w, pid) && CanRun(w, es)
    ensures Repeats(Run(w, es), pid)
    ensures forall a :: Enabled(Run(w, es), Advance(pid, a)) ==>
              var w' := Step(Run(w, es), Advance(pid, a)); w'.chain == Run(w, es).chain && w'.rows == Run(w, es).rows
    decreases |es|
  {
    if |es| > 0 {
      var e := es[0];
      if e.Advance? && e.pid == pid { RepeatOwnStep(w, pid, e.answer); } else { RepeatOtherStep(w, e, pid); }
      RepeatRuns(Step(w, e), es[1..], pid);
    } else {
      forall a | Enabled(w, Advance(pid, a))
        ensures var w' := Step(w, Advance(pid, a)); w'.chain == w.chain && w'.rows == w.rows
      {
        RepeatOwnStep(w, pid, a);
      }
    }
  }

  // ----- overlapping revokes -----

  ghost predicate HasRevoked(w: World, pid: nat) {
    exists i :: 0 <= i < |w.chain| && w.chain[i].RevokeTx? && w.chain[i].revoker == pid
  }

  lemma RunCons(w: World, e: Event, rest: seq<Event>)
    requires Enabled(w, e) && CanRun(Step(w, e), rest)
    ensures CanRun(w, [e] + rest) && Run(w, [e] + rest) == Run(Step(w, e), rest)
  {
    assert ([e] + rest)[1..] == rest;
  }

  lemma {:induction false} RunJoin(w: World, es: seq<Event>, rest: seq<Event>)
    requires CanRun(w, es) && CanRun(Run(w, es), rest)
    ensures CanRun(w, es + rest) && Run(w, es + rest) == Run(Run(w, es), rest)
    decreases |es|
  {
    if |es| == 0 {
      assert es + rest == rest;
    } else {
      RunJoin(Step(w, es[0]), es[1..], rest);
      assert (es + rest)[1..] == es[1..] + rest;
    }
  }

  /** A valid revoke request that has not looked yet. */
  ghost predicate FreshRevoke(w: World, pid: nat, k: Key) {
    pid in w.processes && w.processes[pid] == Process(RevokeOf(k), Received) && |k.binding| > 0
  }

  ghost predicate ActiveRow(w: World, k: Key) {
    k in w.rows && w.rows[k].status.Active?
  }

  /** Its first two segments on an active row: look, then submit. */
  lemma LookStep(w: World, pid: nat, k: Key, a: Answer)
    requires FreshRevoke(w, pid, k) && k in w.rows
    ensures Step(w, Advance(pid, a)) == Moved(w, pid, Looked(Some(w.rows[k])))
  {
  }

  lemma SubmitStep(w: World, pid: nat, k: Key, row: Row, a: Answer)
    requires pid in w.processes && w.processes[pid] == Process(RevokeOf(k), Looked(Some(row)))
    requires row.status.Active? && a.ok
    ensures Step(w, Advance(pid, a))
         == Moved(w, pid, RevokedOnChain(row.pda, a.tx)).(chain := w.chain + [RevokeTx(row.pda, a.tx, pid)])
  {
  }

  lemma MarkStep(w: World, pid: nat, k: Key, pda: string, tx: string, a: Answer)
    requires pid in w.processes && w.processes[pid] == Process(RevokeOf(k), RevokedOnChain(pda, tx)) && k in w.rows
    ensures Step(w, Advance(pid, a))
         == Moved(w, pid, Finished(RevokedNow(pda, tx))).(rows := MarkRevoked(w.rows, k, Revoked(a.now, tx, pid)))
  {
  }

  lemma ActiveCanSubmit(w: World, pid: nat, k: Key) returns (es: seq<Event>)
    requires FreshRevoke(w, pid, k) && ActiveRow(w, k)
    ensures CanRun(w, es) && HasRevoked(Run(w, es), pid)
  {
    var e := Advance(pid, FIRST);
    var w1 := Step(w, e);
    LookStep(w, pid, k, FIRST);
    SubmitStep(w1, pid, k, w.rows[k], FIRST);
    var w2 := Step(w1, e);
    assert w2.chain[|w1.chain|].RevokeTx? && w2.chain[|w1.chain|].revoker == pid;
    RunCons(w1, e, []);
    es := [e] + ([e] + []);
    RunCons(w, e, [e] + []);
  }

  /** There is always an identifier for one more request. */
  lemma NewId(ps: map<nat, Process>) returns (id: nat)
    ensures id !in ps
  {
    id := Bound(ps.Keys);
  }

  lemma {:induction false} Bound(s: set<nat>) returns (b: nat)
    ensures forall x :: x in s ==> x < b
    decreases s
  {
    if s == {} {
      b := 0;
    } else {
      var x :| x in s;
      var c := Bound(s - {x});
      b := if x < c then c else x + 1;
      assert forall y :: y in s ==> y == x || y in s - {x};
    }
  }

  /** One issue request, alone, up to its stored row. */
  lemma IssueAlone(w: World, id: nat, k: Key) returns (es: seq<Event>)
    requires id !in w.processes && k !in w.rows && |k.binding| > 0
    ensures CanRun(w, es) && ActiveRow(Run(w, es), k)
    ensures forall q :: q in w.processes ==> q in Run(w, es).processes && Run(w, es).processes[q] == w.processes[q]
  {
    var r, e := IssueTo(k, "c"), Advance(id, FIRST);
    var w0 := Step(w, Start(id, r));
    var w1 := Step(w0, e);
    assert w1 == Moved(w0, id, Looked(None));
    var w2 := Step(w1, e);
    assert w2 == Moved(w0, id, Pinned("ipfs://x"));
    var w3 := Step(w2, e);
    assert w3 == Moved(w0, id, Slotted("ipfs://x"));
    var w4 := Step(w3, e);
    assert w4.processes[id].point.OnChain? && w4.processes[id].point.own.status.Active? && w4.rows == w.rows;
    var w5 := Step(w4, e);
    assert ActiveRow(w5, k);
    var es5 := [e] + [];
    var es4 := [e] + es5;
    var es3 := [e] + es4;
    var es2 := [e] + es3;
    RunCons(w4, e, []);
    RunCons(w3, e, es5);
    RunCons(w2, e, es4);
    RunCons(w1, e, es3);
    RunCons(w0, e, es2);
    es := [Start(id, r)] + ([e] + es2);
    RunCons(w, Start(id, r), [e] + es2);
  }

  lemma UnrevokedCanSubmit(w: World, pid: nat, k: Key) returns (es: seq<Event>)
    requires FreshRevoke(w, pid, k) && !(k in w.rows && w.rows[k].status.Revoked?)
    ensures CanRun(w, es) && HasRevoked(Run(w, es), pid)
  {
    if k in w.rows {
      es := ActiveCanSubmit(w, pid, k);
    } else {
      var id := NewId(w.processes);
      var first := IssueAlone(w, id, k);
      var last := ActiveCanSubmit(Run(w, first), pid, k);
      RunJoin(w, first, last);
      es := first + last;
    }
  }

  /** No step of another request revokes in the name of this one. */
  lemma RevokedUnchanged(w: World, e: Event, pid: nat)
    requires Enabled(w, e) && (e.Advance? && e.pid == pid ==> Step(w, e).chain == w.chain)
    ensures HasRevoked(Step(w, e), pid) <==> HasRevoked(w, pid)
  {
    var c, c' := w.chain, Step(w, e).chain;
    ChainGrows(w, e);
    assert forall i :: 0 <= i < |c| ==> c'[..|c|][i] == c'[i];
  }

  lemma ChainGrows(w: World, e: Event)
    requires Enabled(w, e)
    ensures var c, c' := w.chain, Step(w, e).chain;
            && |c| <= |c'| <= |c| + 1 && c'[..|c|] == c
            && (|c'| > |c| ==> e.Advance? && (c'[|c|].RevokeTx? ==> c'[|c|].revoker == e.pid))
  {
  }

  lemma {:induction false} RepeatNeverRevokes(w: World, es: seq<Event>, pid: nat)
    requires Repeats(w, pid) && CanRun(w, es)
    ensures HasRevoked(Run(w, es), pid) <==> HasRevoked(w, pid)
    decreases |es|
  {
    if |es| > 0 {
      var e := es[0];
      if e.Advance? && e.pid == pid { RepeatOwnStep(w, pid, e.answer); } else { RepeatOtherStep(w, e, pid); }
      RevokedUnchanged(w, e, pid);
      RepeatNeverRevokes(Step(w, e), es[1..], pid);
    }
  }

  ghost predicate MayRevoke(w: World, pid: nat) {
    exists es :: CanRun(w, es) && HasRevoked(Run(w, es), pid)
  }

  /** When a second submission is excluded: in every reachable world a valid revoke that has not
      looked yet can come to submit a transaction exactly if its row is not revoked. */
  lemma RevokesIffNotRevoked(es: seq<Event>, pid: nat, k: Key)
    requires CanRun(EMPTY, es) && FreshRevoke(Run(EMPTY, es), pid, k)
    ensures var w := Run(EMPTY, es); MayRevoke(w, pid) <==> !(k in w.rows && w.rows[k].status.Revoked?)
  {
    var w := Run(EMPTY, es);
    if k in w.rows && w.rows[k].status.Revoked? {
      RunChainOk(EMPTY, es);
      NotYetRevoked(w, pid);
      forall more | CanRun(w, more) ensures !HasRevoked(Run(w, more), pid) {
        RepeatNeverRevokes(w, more, pid);
      }
    } else {
      var more := UnrevokedCanSubmit(w, pid, k);
    }
  }

  lemma NotYetRevoked(w: World, pid: nat)
    requires ChainOk(w) && pid in w.processes && w.processes[pid].point.Received?
    ensures !HasRevoked(w, pid)
  {
    forall i | 0 <= i < |w.chain| && w.chain[i].RevokeTx? ensures w.chain[i].revoker != pid {
      assert w.chain[i] in w.chain;
      assert RevokerOk(w, w.chain[i]);
    }
  }

  /** Two requests that both looked before either recorded both submit; the row records one
      signature and the other is told a signature that the row does not record. */
  lemma TwoRevokes(w: World, p: nat, q: nat, k: Key) returns (es: seq<Event>)
    requires p != q && FreshRevoke(w, p, k) && FreshRevoke(w, q, k) && ActiveRow(w, k)
    ensures CanRun(w, es) && k in Run(w, es).rows && Run(w, es).rows[k].status == Revoked(0, "tx1", p)
    ensures var v, pda := Run(w, es), w.rows[k].pda;
            && p in v.processes && v.processes[p].point == Finished(RevokedNow(pda, "tx1"))
            && q in v.processes && v.processes[q].point == Finished(RevokedNow(pda, "tx2"))
  {
    var row := w.rows[k];
    var a, b := Advance(p, FIRST), Advance(q, SECOND);
    var w1 := Step(w, a);
    LookStep(w, p, k, FIRST);
    var w2 := Step(w1, b);
    LookStep(w1, q, k, SECOND);
    var w3 := Step(w2, a);
    SubmitStep(w2, p, k, row, FIRST);
    var w4 := Step(w3, b);
    SubmitStep(w3, q, k, row, SECOND);
    var w5 := Step(w4, a);
    MarkStep(w4, p, k, row.pda, "tx1", FIRST);
    MarkStep(w5, q, k, row.pda, "tx2", SECOND);
    es := SixEvents(w, a, b);
  }

  lemma SixEvents(w: World, a: Event, b: Event) returns (es: seq<Event>)
    requires Enabled(w, a) && Enabled(Step(w, a), b) && Enabled(Step(Step(w, a), b), a)
    requires var w3 := Step(Step(Step(w, a), b), a);
             Enabled(w3, b) && Enabled(Step(w3, b), a) && Enabled(Step(Step(w3, b), a), b)
    ensures CanRun(w, es) && Run(w, es) == Step(Step(Step(Step(Step(Step(w, a), b), a), b), a), b)
  {
    var w1 := Step(w, a);
    var w2 := Step(w1, b);
    var w3 := Step(w2, a);
    var w4 := Step(w3, b);
    var w5 := Step(w4, a);
    RunCons(w5, b, []);
    RunCons(w4, a, [b] + []);
    RunCons(w3, b, [a] + ([b] + []));
    RunCons(w2, a, [b] + ([a] + ([b] + [])));
    RunCons(w1, b, [a] + ([b] + ([a] + ([b] + []))));
    es := [a] + ([b] + ([a] + ([b] + ([a] + ([b] + [])))));
    RunCons(w, a, [b] + ([a] + ([b] + ([a] + ([b] + [])))));
  }

  /** From the start: an issue and two overlapping revokes. */
  lemma OverlapRevokesTwice(k: Key) returns (es: seq<Event>)
    requires |k.binding| > 0
    ensures CanRun(EMPTY, es) && 0 in Run(EMPTY, es).processes && 1 in Run(EMPTY, es).processes
    ensures var w := Run(EMPTY, es);
            && k in w.rows && w.rows[k].status == Revoked(0, "tx1", 0)
            && w.processes[0].point == Finished(RevokedNow(w.rows[k].pda, "tx1"))
            && w.processes[1].point == Finished(RevokedNow(w.rows[k].pda, "tx2"))
  {
    var r := RevokeOf(k);
    var w1 := Step(EMPTY, Start(0, r));
    var w2 := Step(w1, Start(1, r));
    var first := IssueAlone(w2, 2, k);
    var v := Run(w2, first);
    var last := TwoRevokes(v, 0, 1, k);
    RunJoin(w2, first, last);
    RunCons(w1, Start(1, r), first + last);
    es := [Start(0, r)] + ([Start(1, r)] + (first + last));
    RunCons(EMPTY, Start(0, r), [Start(1, r)] + (first + last));
    RunKeepsRows(v, last);
  }

  lemma {:induction false} RunKeepsRows(w: World, es: seq<Event>)
    requires CanRun(w, es)
    ensures forall k :: k in w.rows ==> k in Run(w, es).rows && Run(w, es).rows[k].pda == w.rows[k].pda
    decreases |es|
  {
    if |es| > 0 {
      StepExtends(w, es[0]);
      RunKeepsRows(Step(w, es[0]), es[1..]);
    }
  }

  /** Revocations submitted by different requests have different signatures. */
  ghost predicate FreshSignatures(w: World) {
    forall x, y :: x in w.chain && y in w.chain && x.RevokeTx? && y.RevokeTx? && x.revokeTx == y.revokeTx ==>
                     x.revoker == y.revoker
  }

  /** A request that is told "revoked" carries the signature of the row exactly if it was the one
      to record it; it always does if it was, even if signatures repeat. */
  lemma RevokedTellsRowIff(es: seq<Event>, p: nat)
    requires CanRun(EMPTY, es) && p in Run(EMPTY, es).processes && Run(EMPTY, es).processes[p].point.Finished?
    requires Run(EMPTY, es).processes[p].point.reply.RevokedNow?
    ensures var w := Run(EMPTY, es);
            var k, reply := w.processes[p].request.key, w.processes[p].point.reply;
            && k in w.rows && w.rows[k].status.Revoked?
            && (w.rows[k].status.marker == p ==> reply.tx == w.rows[k].status.tx)
            && (FreshSignatures(w) ==> (reply.tx == w.rows[k].status.tx <==> w.rows[k].status.marker == p))
  {
    RunOk(EMPTY, es);
    var w := Run(EMPTY, es);
    assert ProcessOk(w, p, w.processes[p]);
    var k := w.processes[p].request.key;
    assert RowOk(w, k);
  }

  // ----- when one PDA is issued twice, transactions can differ -----

  const FIRST: Answer := Answer(true, "ipfs://x", "pda", "tx1", 0)
  const SECOND: Answer := Answer(true, "ipfs://x", "pda", "tx2", 0)

  ghost predicate Ready(w: World) {
    0 in w.processes && 1 in w.processes && !w.processes[0].point.Finished? && !w.processes[1].point.Finished?
  }

  ghost function Both(w: World): World
    requires Ready(w)
  {
    Step(Step(w, Advance(0, FIRST)), Advance(1, SECOND))
  }

  lemma RunBoth(w: World, rest: seq<Event>)
    requires Ready(w) && CanRun(Both(w), rest)
    ensures var es := [Advance(0, FIRST), Advance(1, SECOND)] + rest;
            CanRun(w, es) && Run(w, es) == Run(Both(w), rest)
  {
    var es := [Advance(0, FIRST), Advance(1, SECOND)] + rest;
    assert es[1..] == [Advance(1, SECOND)] + rest && es[1..][1..] == rest;
  }

  /** The world of two requests for the same thing. */
  ghost function Pair(r: Request, p: Point, q: Point, rows: map<Key, Row>, chain: seq<Transaction>): World {
    World(rows, map[0 := Process(r, p), 1 := Process(r, q)], chain)
  }

  /** Both look, pin and read the slot before either is on the chain. */
  lemma BothPrepare(r: Request)
    requires r.IssueTo? && WellFormed(r)
    ensures Both(Pair(r, Received, Received, map[], [])) == Pair(r, Looked(None), Looked(None), map[], [])
    ensures Both(Pair(r, Looked(None), Looked(None), map[], []))
         == Pair(r, Pinned("ipfs://x"), Pinned("ipfs://x"), map[], [])
    ensures Both(Pair(r, Pinned("ipfs://x"), Pinned("ipfs://x"), map[], []))
         == Pair(r, Slotted("ipfs://x"), Slotted("ipfs://x"), map[], [])
  {
  }

  ghost function OwnRowOf(r: Request, tx: string, pid: nat): Row
    requires r.IssueTo?
  {
    Row(r.card, "pda", tx, "ipfs://x", 0, Active, pid)
  }

  ghost function OwnTx(r: Request, tx: string, pid: nat): Transaction
    requires r.IssueTo?
  {
    IssueTx(r.key, SchemaLabel(r.key.kind), r.card, "pda", tx, "ipfs://x", pid)
  }

  ghost function OwnChain(r: Request): seq<Transaction>
    requires r.IssueTo?
  {
    [OwnTx(r, "tx1", 0), OwnTx(r, "tx2", 1)]
  }

  /** Both are issued under one PDA. */
  lemma BothSubmit(r: Request)
    requires r.IssueTo?
    ensures Both(Pair(r, Slotted("ipfs://x"), Slotted("ipfs://x"), map[], []))
         == Pair(r, OnChain(OwnRowOf(r, "tx1", 0)), OnChain(OwnRowOf(r, "tx2", 1)), map[], OwnChain(r))
  {
  }

  /** The first row wins. */
  lemma BothStore(r: Request)
    requires r.IssueTo?
    ensures var a, b := OwnRowOf(r, "tx1", 0), OwnRowOf(r, "tx2", 1);
            Both(Pair(r, OnChain(a), OnChain(b), map[], OwnChain(r)))
            == Pair(r, Settled(a, a), Settled(b, a), map[r.key := a], OwnChain(r))
  {
  }

  /** Both are told "issued". */
  lemma BothFinish(r: Request)
    requires r.IssueTo?
    ensures var a, b := OwnRowOf(r, "tx1", 0), OwnRowOf(r, "tx2", 1);
            Both(Pair(r, Settled(a, a), Settled(b, a), map[r.key := a], OwnChain(r)))
            == Pair(r, Finished(Issued("pda", "tx1", "ipfs://x")), Finished(Issued("pda", "tx2", "ipfs://x")),
                    map[r.key := a], OwnChain(r))
  {
  }

  /** Two overlapping requests for one key and card, to which the chain gives the same PDA, are
      both told "issued", with different transaction signatures. */
  lemma SamePdaTwice(r: Request) returns (es: seq<Event>)
    requires r.IssueTo? && WellFormed(r)
    ensures CanRun(EMPTY, es) && Answered(Run(EMPTY, es), 0) && Answered(Run(EMPTY, es), 1)
    ensures Run(EMPTY, es).processes[0] == Process(r, Finished(Issued("pda", "tx1", "ipfs://x")))
    ensures Run(EMPTY, es).processes[1] == Process(r, Finished(Issued("pda", "tx2", "ipfs://x")))
  {
    var both := [Advance(0, FIRST), Advance(1, SECOND)];
    var w1 := Pair(r, Received, Received, map[], []);
    var w2 := Both(w1);
    var w3 := Both(w2);
    BothPrepare(r);
    BothSubmit(r);
    BothStore(r);
    BothFinish(r);
    var es6 := both + [];
    var es5 := both + es6;
    var es4 := both + es5;
    RunBoth(Both(Both(Both(w3))), []);
    RunBoth(Both(Both(w3)), es6);
    RunBoth(Both(w3), es5);
    RunThree(w1, es4);
    es := [Start(0, r), Start(1, r)] + (both + (both + (both + es4)));
    TwoStarts(r, both + (both + (both + es4)));
  }

  lemma RunThree(w: World, rest: seq<Event>)
    requires Ready(w) && Ready(Both(w)) && Ready(Both(Both(w))) && CanRun(Both(Both(Both(w))), rest)
    ensures var both := [Advance(0, FIRST), Advance(1, SECOND)];
            var es := both + (both + (both + rest));
            CanRun(w, es) && Run(w, es) == Run(Both(Both(Both(w))), rest)
  {
    var both := [Advance(0, FIRST), Advance(1, SECOND)];
    RunBoth(Both(Both(w)), rest);
    RunBoth(Both(w), both + rest);
    RunBoth(w, both + (both + rest));
  }

  lemma TwoStarts(r: Request, rest: seq<Event>)
    requires CanRun(Pair(r, Received, Received, map[], []), rest)
    ensures var es := [Start(0, r), Start(1, r)] + rest;
            CanRun(EMPTY, es) && Run(EMPTY, es) == Run(Pair(r, Received, Received, map[], []), rest)
  {
    var es := [Start(0, r), Start(1, r)] + rest;
    assert es[1..] == [Start(1, r)] + rest && es[1..][1..] == rest;
    assert Step(Step(EMPTY, Start(0, r)), Start(1, r)) == Pair(r, Received, Received, map[], []);
  }
}
