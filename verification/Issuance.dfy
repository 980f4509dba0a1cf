/** The issuance protocol of src/issuers/worldcoin.ts and src/issuers/skill-cert.ts: requests
    that interleave at every await over one write-once binding store and one chain. */
module Issuance {
  import opened Common

  // ----- requests and their store keys -----

  datatype Request =
    | WorldcoinRequest(nullifier: string, card: string)
    | SkillRequest(skill: string, subject: string)

  /** Drop one 0x prefix and lower the case. */
  function NormalizeHex(s: string): string {
    LowerAll(if |s| >= 2 && s[0] == '0' && (s[1] == 'x' || s[1] == 'X') then s[2..] else s)
  }

  predicate SlugChar(c: char) {
    'a' <= c <= 'z' || '0' <= c <= '9'
  }

  /** Runs of lowercase letters and digits joined by single hyphens. */
  predicate ValidSlug(s: string) {
    && |s| > 0 && SlugChar(s[0]) && SlugChar(s[|s| - 1])
    && (forall i :: 0 <= i < |s| ==> SlugChar(s[i]) || s[i] == '-')
    && (forall i :: 0 <= i < |s| - 1 ==> s[i] != '-' || s[i + 1] != '-')
  }

  /** A key of the nullifier store or of the skill store: the two stores are separate. */
  datatype Key = NullifierKey(hex: string) | SkillKey(joined: string)

  /** The issuer normalizes the nullifier once and the store once more; skills are joined to
      their subject with a NUL. */
  function StoreKey(r: Request): Key {
    match r
    case WorldcoinRequest(n, _) => NullifierKey(NormalizeHex(NormalizeHex(n)))
    case SkillRequest(skill, subject) => SkillKey(skill + "\0" + subject)
  }

  function CardOf(r: Request): string {
    match r
    case WorldcoinRequest(_, card) => card
    case SkillRequest(_, subject) => subject
  }

  /** Only the Worldcoin issuer compares the card of a row it finds with the caller's. */
  predicate ChecksCard(r: Request) {
    r.WorldcoinRequest?
  }

  /** The joined key determines skill and subject, because a slug holds no NUL. */
  lemma JoinedKeyInjective(a: Request, b: Request)
    requires a.SkillRequest? && b.SkillRequest? && ValidSlug(a.skill) && ValidSlug(b.skill)
    requires StoreKey(a) == StoreKey(b)
    ensures a == b
  {
    var x, y := StoreKey(a).joined, StoreKey(b).joined;
    assert x[|a.skill|] == '\0' && y[|b.skill|] == '\0';
    assert forall i :: 0 <= i < |a.skill| ==> x[i] == a.skill[i];
    assert forall i :: 0 <= i < |b.skill| ==> y[i] == b.skill[i];
    assert |a.skill| == |b.skill|;
    assert a.skill == x[..|a.skill|] && b.skill == y[..|b.skill|];
    assert a.subject == x[|a.skill| + 1..] && b.subject == y[|b.skill| + 1..];
  }

  // ----- when two requests share a key -----

  predicate HasHexPrefix(s: string) {
    |s| >= 2 && s[0] == '0' && (s[1] == 'x' || s[1] == 'X')
  }

  /** The nullifier without the prefixes that the issuer and then the store drop. */
  function Digits(s: string): string {
    var once := if HasHexPrefix(s) then s[2..] else s;
    if HasHexPrefix(once) then once[2..] else once
  }

  predicate SameLetter(c: char, d: char) {
    c == d || ('A' <= c <= 'Z' && d as int == c as int + 32) || ('A' <= d <= 'Z' && c as int == d as int + 32)
  }

  predicate SameIgnoringCase(a: string, b: string) {
    |a| == |b| && forall i :: 0 <= i < |a| ==> SameLetter(a[i], b[i])
  }

  lemma LowerIsSameLetter(c: char, d: char)
    ensures Lower(c) == Lower(d) <==> SameLetter(c, d)
    ensures SameLetter(c, Lower(c))
  {
  }

  /** Normalizing twice drops up to two prefixes and the case of letters. */
  lemma NormalizedTwice(n: string)
    ensures NormalizeHex(NormalizeHex(n)) == LowerAll(Digits(n))
  {
    var once := if HasHexPrefix(n) then n[2..] else n;
    var low := LowerAll(once);
    assert HasHexPrefix(low) <==> HasHexPrefix(once);
    if HasHexPrefix(once) {
      LowerTwice(once, 2);
    } else {
      LowerTwice(once, 0);
      assert low[0..] == low && once[0..] == once;
    }
  }

  lemma {:induction false} LowerTwice(s: string, k: nat)
    requires k <= |s|
    ensures LowerAll(LowerAll(s)[k..]) == LowerAll(s[k..])
  {
    LowerSuffix(s, k);
    LowerAgain(s[k..]);
  }

  lemma {:induction false} LowerSuffix(s: string, k: nat)
    requires k <= |s|
    ensures LowerAll(s)[k..] == LowerAll(s[k..])
  {
    forall i | 0 <= i < |s| - k ensures LowerAll(s)[k..][i] == LowerAll(s[k..])[i] {
      assert s[k..][i] == s[k + i];
    }
  }

  lemma {:induction false} LowerAgain(s: string)
    ensures LowerAll(LowerAll(s)) == LowerAll(s)
  {
    forall i | 0 <= i < |s| ensures LowerAll(LowerAll(s))[i] == LowerAll(s)[i] {
      LowerOnce(s[i]);
    }
  }

  lemma LowerOnce(c: char)
    ensures Lower(Lower(c)) == Lower(c)
  {
  }

  /** Two nullifiers are one key exactly if their digits agree in all but case. */
  lemma SameNullifierKey(a: Request, b: Request)
    requires a.WorldcoinRequest? && b.WorldcoinRequest?
    ensures StoreKey(a) == StoreKey(b) <==> SameIgnoringCase(Digits(a.nullifier), Digits(b.nullifier))
  {
    var x, y := Digits(a.nullifier), Digits(b.nullifier);
    NormalizedTwice(a.nullifier);
    NormalizedTwice(b.nullifier);
    forall i | 0 <= i < |x| && i < |y| ensures Lower(x[i]) == Lower(y[i]) <==> SameLetter(x[i], y[i]) {
      LowerIsSameLetter(x[i], y[i]);
    }
    if SameIgnoringCase(x, y) { assert LowerAll(x) == LowerAll(y); }
    if LowerAll(x) == LowerAll(y) {
      assert |x| == |LowerAll(x)| == |LowerAll(y)| == |y|;
      assert forall i :: 0 <= i < |x| ==> Lower(x[i]) == LowerAll(x)[i] == LowerAll(y)[i] == Lower(y[i]);
    }
  }

  // ----- what a slug is -----

  /** A nonempty run of lowercase letters and digits. */
  predicate IsRun(s: string) {
    |s| > 0 && forall i :: 0 <= i < |s| ==> 'a' <= s[i] <= 'z' || '0' <= s[i] <= '9'
  }

  function Hyphenated(runs: seq<string>): string {
    if |runs| == 0 then "" else if |runs| == 1 then runs[0] else runs[0] + ("-" + Hyphenated(runs[1..]))
  }

  ghost predicate IsSlug(s: string) {
    exists runs :: |runs| > 0 && (forall i :: 0 <= i < |runs| ==> IsRun(runs[i])) && s == Hyphenated(runs)
  }

  lemma {:induction false} HyphenatedIsValid(runs: seq<string>)
    requires |runs| > 0 && forall i :: 0 <= i < |runs| ==> IsRun(runs[i])
    ensures ValidSlug(Hyphenated(runs))
    decreases |runs|
  {
    assert IsRun(runs[0]);
    if |runs| > 1 {
      HyphenatedIsValid(runs[1..]);
      SlugAfterRun(runs[0], Hyphenated(runs[1..]));
    }
  }

  lemma SlugAfterRun(a: string, rest: string)
    requires IsRun(a) && ValidSlug(rest)
    ensures ValidSlug(a + ("-" + rest))
  {
    var s := a + ("-" + rest);
    assert s[|a|] == '-' && forall i :: 0 <= i < |rest| ==> s[|a| + 1 + i] == rest[i];
    forall i | 0 <= i < |s| ensures SlugChar(s[i]) || s[i] == '-' {
      if i > |a| { assert s[i] == rest[i - |a| - 1]; }
    }
    forall i | 0 <= i < |s| - 1 ensures s[i] != '-' || s[i + 1] != '-' {
      if i > |a| { assert s[i] == rest[i - |a| - 1] && s[i + 1] == rest[i - |a|]; }
    }
  }

  /** How many slug characters a text starts with. */
  function RunLength(s: string): (n: nat)
    ensures n <= |s| && (forall i :: 0 <= i < n ==> SlugChar(s[i])) && (n < |s| ==> !SlugChar(s[n]))
  {
    if |s| > 0 && SlugChar(s[0]) then 1 + RunLength(s[1..]) else 0
  }

  lemma {:induction false} RunsOf(s: string) returns (runs: seq<string>)
    requires ValidSlug(s)
    ensures |runs| > 0 && (forall i :: 0 <= i < |runs| ==> IsRun(runs[i])) && s == Hyphenated(runs)
    decreases |s|
  {
    var n := RunLength(s);
    if n == |s| {
      runs := [s];
    } else {
      AfterFirstRun(s, n);
      var more := RunsOf(s[n + 1..]);
      runs := [s[..n]] + more;
      assert runs[1..] == more;
    }
  }

  lemma AfterFirstRun(s: string, n: nat)
    requires ValidSlug(s) && n < |s| && !SlugChar(s[n]) && forall i :: 0 <= i < n ==> SlugChar(s[i])
    ensures n + 1 <= |s| && ValidSlug(s[n + 1..]) && IsRun(s[..n]) && s == s[..n] + ("-" + s[n + 1..])
  {
    assert s[n] == '-' && n > 0 && n + 1 < |s|;
    assert SlugChar(s[n]) || s[n] == '-';
    assert s[n] != '-' || s[n + 1] != '-';
    RestIsValid(s, n + 1);
  }

  lemma RestIsValid(s: string, k: nat)
    requires ValidSlug(s) && k < |s| && SlugChar(s[k])
    ensures ValidSlug(s[k..])
  {
    var t := s[k..];
    assert forall i :: 0 <= i < |t| ==> t[i] == s[k + i];
    forall i | 0 <= i < |t| - 1 ensures t[i] != '-' || t[i + 1] != '-' {
      assert t[i] == s[k + i] && t[i + 1] == s[k + i + 1];
    }
  }

  /** The slug test accepts exactly nonempty runs joined by single hyphens. */
  lemma SlugIff(s: string)
    ensures ValidSlug(s) <==> IsSlug(s)
  {
    if ValidSlug(s) { var runs := RunsOf(s); }
    forall runs | |runs| > 0 && (forall i :: 0 <= i < |runs| ==> IsRun(runs[i])) && s == Hyphenated(runs)
      ensures ValidSlug(s)
    {
      HyphenatedIsValid(runs);
    }
  }

  // ----- the in-memory store -----

  /** A binding; writer is the request that stored it. */
  datatype Row = Row(card: string, pda: string, tx: string, uri: string, hash: string, writer: nat)

  class BindingStore {
    var rows: map<Key, Row>

    constructor ()
      ensures rows == map[]
    {
      rows := map[];
    }

    method Get(key: Key) returns (r: Option<Row>)
      ensures r == Lookup(rows, key)
    {
      if key in rows {
        return Some(rows[key]);
      }
      return None;
    }

    /** A put on a key that is already bound throws and changes nothing. */
    method Put(key: Key, row: Row) returns (ok: bool)
      modifies this
      ensures ok == (key !in old(rows)) && rows == PutIfAbsent(old(rows), key, row)
    {
      if key in rows {
        return false;
      }
      rows := rows[key := row];
      return true;
    }
  }

  function Lookup(rows: map<Key, Row>, key: Key): Option<Row> {
    if key in rows then Some(rows[key]) else None
  }

  function PutIfAbsent(rows: map<Key, Row>, key: Key, row: Row): map<Key, Row> {
    if key in rows then rows else rows[key := row]
  }

  // ----- one request -----

  datatype Failure = Refused | BoundToOtherCard | PinFailed | ChainFailed | NoCanonicalRow

  datatype Reply =
    | Success(pda: string, tx: string, uri: string, hash: string, idempotent: bool)
    | Rejected(failure: Failure)

  /** Where a request is suspended. */
  datatype Point =
    | Validating
    | Looked(seen: Option<Row>)
    | Gated
    | Pinned(uri: string, hash: string)
    | OnChain(row: Row)
    | Stored(own: Row)
    | LostRace
    | Reloaded(found: Option<Row>)
    | Finished(reply: Reply)

  datatype Process = Process(request: Request, point: Point)

  /** A successful IssueCredential transaction; issuer is the request that submitted it. */
  datatype Issue = Issue(key: Key, card: string, pda: string, tx: string, uri: string, hash: string, issuer: nat)

  datatype World = World(rows: map<Key, Row>, processes: map<nat, Process>, chain: seq<Issue>)

  /** What the awaited dependency answers. */
  datatype Answer = Answer(ok: bool, uri: string, hash: string, pda: string, tx: string)

  datatype Event = Start(id: nat, request: Request) | Advance(pid: nat, answer: Answer)

  function FromRow(row: Row, idempotent: bool): Reply {
    Success(row.pda, row.tx, row.uri, row.hash, idempotent)
  }

  /** The reply to a caller that found a row. */
  function Found(r: Request, row: Row): Reply {
    if ChecksCard(r) && row.card != CardOf(r) then Rejected(BoundToOtherCard) else FromRow(row, true)
  }

  predicate IpfsUri(s: string) {
    "ipfs://" <= s
  }

  predicate Enabled(w: World, e: Event) {
    match e
    case Start(id, _) => id !in w.processes
    case Advance(pid, _) => pid in w.processes && !w.processes[pid].point.Finished?
  }

  function Moved(w: World, pid: nat, p: Point): World
    requires pid in w.processes
  {
    w.(processes := w.processes[pid := w.processes[pid].(point := p)])
  }

  /** One segment of issue between two awaits. */
  function Step(w: World, e: Event): World
    requires Enabled(w, e)
  {
    match e
    case Start(id, r) => w.(processes := w.processes[id := Process(r, Validating)])
    case Advance(pid, a) =>
      var r, point := w.processes[pid].request, w.processes[pid].point;
      var key := StoreKey(r);
      match point
      case Validating =>
        if a.ok && (r.SkillRequest? ==> ValidSlug(r.skill)) then Moved(w, pid, Looked(Lookup(w.rows, key)))
        else Moved(w, pid, Finished(Rejected(Refused)))
      case Looked(seen) =>
        if seen.Some? then Moved(w, pid, Finished(Found(r, seen.value)))
        else if a.ok then Moved(w, pid, Gated)
        else Moved(w, pid, Finished(Rejected(Refused)))
      case Gated =>
        if a.ok && IpfsUri(a.uri) then Moved(w, pid, Pinned(a.uri, a.hash))
        else Moved(w, pid, Finished(Rejected(PinFailed)))
      case Pinned(uri, hash) =>
        if a.ok then
          Moved(w, pid, OnChain(Row(CardOf(r), a.pda, a.tx, uri, hash, pid)))
            .(chain := w.chain + [Issue(key, CardOf(r), a.pda, a.tx, uri, hash, pid)])
        else Moved(w, pid, Finished(Rejected(ChainFailed)))
      case OnChain(row) =>
        Moved(w, pid, if key in w.rows then LostRace else Stored(row)).(rows := PutIfAbsent(w.rows, key, row))
      case Stored(row) => Moved(w, pid, Finished(FromRow(row, false)))
      case LostRace => Moved(w, pid, Reloaded(Lookup(w.rows, key)))
      case Reloaded(found) =>
        Moved(w, pid, Finished(if found.None? then Rejected(NoCanonicalRow) else Found(r, found.value)))
      case Finished(_) => w
  }

  ghost predicate CanRun(w: World, es: seq<Event>)
    decreases |es|
  {
    |es| == 0 || (Enabled(w, es[0]) && CanRun(Step(w, es[0]), es[1..]))
  }

  ghost function Run(w: World, es: seq<Event>): World
    requires CanRun(w, es)
    decreases |es|
  {
    if |es| == 0 then w else Run(Step(w, es[0]), es[1..])
  }

  const EMPTY: World := World(map[], map[], [])

  // ----- the invariant -----

  /** The chain holds the transaction that a row records, submitted by the row's writer. */
  ghost predicate Backed(w: World, key: Key, row: Row) {
    Issue(key, row.card, row.pda, row.tx, row.uri, row.hash, row.writer) in w.chain
  }

  /** A row that a request holds is the stored row of its key. */
  ghost predicate Holds(w: World, key: Key, row: Row) {
    key in w.rows && w.rows[key] == row
  }

  /** A request that got past validation has a key that determines its card as far as the
      issuer relies on it. */
  predicate Valid(r: Request) {
    r.SkillRequest? ==> ValidSlug(r.skill)
  }

  ghost predicate ProcessOk(w: World, pid: nat, p: Process) {
    var key := StoreKey(p.request);
    match p.point
    case Validating => true
    case Looked(seen) => Valid(p.request) && (seen.Some? ==> Holds(w, key, seen.value))
    case OnChain(row) => Valid(p.request) && row.writer == pid && row.card == CardOf(p.request) && Backed(w, key, row)
    case Stored(row) => Valid(p.request) && row.writer == pid && row.card == CardOf(p.request) && Holds(w, key, row)
    case LostRace => Valid(p.request) && key in w.rows
    case Reloaded(found) => Valid(p.request) && found.Some? && Holds(w, key, found.value)
    case Finished(reply) => reply.Success? ==> Valid(p.request) && ReplyOk(w, pid, p.request, reply)
    case _ => Valid(p.request)
  }

  /** A successful reply carries the stored row, for the caller's card; a non-idempotent one
      goes to the writer of the row. */
  ghost predicate ReplyOk(w: World, pid: nat, r: Request, reply: Reply)
    requires reply.Success?
  {
    var key := StoreKey(r);
    key in w.rows && reply == FromRow(w.rows[key], reply.idempotent)
    && (ChecksCard(r) ==> w.rows[key].card == CardOf(r)) && (!reply.idempotent ==> w.rows[key].writer == pid)
  }

  /** A process satisfies its condition and did not end without a canonical row. */
  ghost predicate GoodProcess(w: World, pid: nat)
    requires pid in w.processes
  {
    ProcessOk(w, pid, w.processes[pid]) && w.processes[pid].point != Finished(Rejected(NoCanonicalRow))
  }

  ghost predicate Inv(w: World) {
    && (forall k :: k in w.rows ==> RowOk(w, k))
    && (forall pid :: pid in w.processes ==> GoodProcess(w, pid))
  }

  /** A row is backed by the chain, and was written for its card by a request for its key. */
  ghost predicate RowOk(w: World, k: Key)
    requires k in w.rows
  {
    var row := w.rows[k];
    Backed(w, k, row) && row.writer in w.processes
    && Valid(w.processes[row.writer].request) && StoreKey(w.processes[row.writer].request) == k
    && CardOf(w.processes[row.writer].request) == row.card
  }

  /** Rows are never changed or removed, and the chain only grows. */
  ghost predicate Extends(w': World, w: World) {
    && (forall k :: k in w.rows ==> k in w'.rows && w'.rows[k] == w.rows[k])
    && w.chain <= w'.chain
    && (forall pid :: pid in w.processes ==>
                      pid in w'.processes && w'.processes[pid].request == w.processes[pid].request)
    && (forall pid :: pid in w.processes && w.processes[pid].point.Finished? ==> w'.processes[pid] == w.processes[pid])
  }

  lemma PutExtends(w: World, pid: nat, a: Answer)
    requires pid in w.processes && w.processes[pid].point.OnChain?
    ensures Extends(Step(w, Advance(pid, a)), w)
  {
  }

  lemma StepExtends(w: World, e: Event)
    requires Enabled(w, e)
    ensures Extends(Step(w, e), w)
  {
    if e.Advance? && w.processes[e.pid].point.OnChain? { PutExtends(w, e.pid, e.answer); }
  }

  /** What one request knows stays true when another one moves. */
  lemma ProcessStable(w: World, w': World, pid: nat, p: Process)
    requires ProcessOk(w, pid, p) && Extends(w', w)
    ensures ProcessOk(w', pid, p)
  {
  }

  lemma RowStable(w: World, w': World, k: Key)
    requires k in w.rows && RowOk(w, k) && Extends(w', w)
    ensures RowOk(w', k)
  {
  }

  /** Submitting the transaction: the row to store is backed by it. */
  lemma SubmitOk(w: World, pid: nat, a: Answer)
    requires pid in w.processes && w.processes[pid].point.Pinned? && Valid(w.processes[pid].request)
    ensures GoodProcess(Step(w, Advance(pid, a)), pid)
  {
    var w' := Step(w, Advance(pid, a));
    if a.ok { assert w'.chain[|w.chain|] in w'.chain; }
  }

  /** Storing the row, or losing the race for it. */
  lemma PutOk(w: World, pid: nat, a: Answer)
    requires pid in w.processes && w.processes[pid].point.OnChain? && GoodProcess(w, pid)
    ensures GoodProcess(Step(w, Advance(pid, a)), pid)
  {
  }

  /** The request that moves knows what its next point needs. */
  lemma MoverOk(w: World, pid: nat, a: Answer)
    requires pid in w.processes && !w.processes[pid].point.Finished? && GoodProcess(w, pid)
    ensures GoodProcess(Step(w, Advance(pid, a)), pid)
  {
    if w.processes[pid].point.Pinned? {
      SubmitOk(w, pid, a);
    } else if w.processes[pid].point.OnChain? {
      PutOk(w, pid, a);
    }
  }

  lemma NewRowOk(w: World, pid: nat, a: Answer, k: Key)
    requires Inv(w) && Enabled(w, Advance(pid, a)) && k in Step(w, Advance(pid, a)).rows && k !in w.rows
    ensures RowOk(Step(w, Advance(pid, a)), k)
  {
    assert GoodProcess(w, pid);
  }

  lemma OtherKept(w: World, e: Event, q: nat)
    requires Enabled(w, e) && q in w.processes && (e.Advance? ==> q != e.pid)
    ensures q in Step(w, e).processes && Step(w, e).processes[q] == w.processes[q]
  {
  }

  lemma GoodStable(w: World, w': World, q: nat)
    requires q in w.processes && GoodProcess(w, q) && Extends(w', w)
    requires q in w'.processes && w'.processes[q] == w.processes[q]
    ensures GoodProcess(w', q)
  {
    ProcessStable(w, w', q, w.processes[q]);
  }

  lemma OtherOk(w: World, e: Event, q: nat)
    requires Inv(w) && Enabled(w, e) && q in w.processes && (e.Advance? ==> q != e.pid)
    ensures q in Step(w, e).processes && GoodProcess(Step(w, e), q)
  {
    assert GoodProcess(w, q);
    StepExtends(w, e);
    OtherKept(w, e, q);
    GoodStable(w, Step(w, e), q);
  }

  lemma ProcessesOk(w: World, e: Event, q: nat)
    requires Inv(w) && Enabled(w, e) && q in Step(w, e).processes
    ensures GoodProcess(Step(w, e), q)
  {
    if e.Advance? && q == e.pid {
      assert GoodProcess(w, q);
      MoverOk(w, q, e.answer);
    } else if q in w.processes {
      OtherOk(w, e, q);
    } else {
      NewProcessOk(w, e, q);
    }
  }

  lemma NewProcessOk(w: World, e: Event, q: nat)
    requires Enabled(w, e) && q !in w.processes && q in Step(w, e).processes
    ensures GoodProcess(Step(w, e), q)
  {
  }

  lemma RowsOk(w: World, e: Event, k: Key)
    requires Inv(w) && Enabled(w, e) && k in Step(w, e).rows
    ensures RowOk(Step(w, e), k)
  {
    StepExtends(w, e);
    if k in w.rows { RowStable(w, Step(w, e), k); } else { NewRowOk(w, e.pid, e.answer, k); }
  }

  lemma StepOk(w: World, e: Event)
    requires Inv(w) && Enabled(w, e)
    ensures Inv(Step(w, e))
  {
    forall k | k in Step(w, e).rows ensures RowOk(Step(w, e), k) {
      RowsOk(w, e, k);
    }
    forall q | q in Step(w, e).processes ensures GoodProcess(Step(w, e), q) {
      ProcessesOk(w, e, q);
    }
  }

  lemma {:induction false} RunOk(w: World, es: seq<Event>)
    requires Inv(w) && CanRun(w, es)
    ensures Inv(Run(w, es)) && Extends(Run(w, es), w)
    decreases |es|
  {
    if |es| > 0 {
      StepOk(w, es[0]);
      StepExtends(w, es[0]);
      RunOk(Step(w, es[0]), es[1..]);
    }
  }

  // ----- what every interleaving keeps -----

  /** The reply of a request that ended successfully. */
  ghost predicate Succeeded(w: World, pid: nat) {
    pid in w.processes && w.processes[pid].point.Finished? && w.processes[pid].point.reply.Success?
  }

  ghost function ReplyTo(w: World, pid: nat): Reply
    requires Succeeded(w, pid)
  {
    w.processes[pid].point.reply
  }

  lemma {:induction false} RunSplit(w: World, es: seq<Event>, n: nat)
    requires CanRun(w, es) && n <= |es|
    ensures CanRun(w, es[..n]) && CanRun(Run(w, es[..n]), es[n..]) && Run(Run(w, es[..n]), es[n..]) == Run(w, es)
    decreases n
  {
    if n == 0 {
      assert es[..0] == [] && es[0..] == es;
    } else {
      RunSplit(Step(w, es[0]), es[1..], n - 1);
      assert es[..n][0] == es[0] && es[..n][1..] == es[1..][..n - 1] && es[1..][n - 1..] == es[n..];
    }
  }

  /** The store is a write-once map over every interleaving: from any point of a run to its
      end no row changes and every row is backed by the chain and bound to its writer's card. */
  lemma WriteOnce(es: seq<Event>, n: nat)
    requires CanRun(EMPTY, es) && n <= |es|
    ensures CanRun(EMPTY, es[..n]) && Extends(Run(EMPTY, es), Run(EMPTY, es[..n]))
    ensures forall k :: k in Run(EMPTY, es).rows ==> RowOk(Run(EMPTY, es), k)
  {
    RunSplit(EMPTY, es, n);
    RunOk(EMPTY, es[..n]);
    RunOk(Run(EMPTY, es[..n]), es[n..]);
  }

  /** A successful reply given at any point carries the row that the key has from then on. */
  lemma RepliesCarryTheRow(es: seq<Event>, n: nat, pid: nat)
    requires CanRun(EMPTY, es) && n <= |es| && CanRun(EMPTY, es[..n]) && Succeeded(Run(EMPTY, es[..n]), pid)
    ensures Succeeded(Run(EMPTY, es), pid) && ReplyTo(Run(EMPTY, es), pid) == ReplyTo(Run(EMPTY, es[..n]), pid)
    ensures ReplyOk(Run(EMPTY, es), pid, Run(EMPTY, es).processes[pid].request, ReplyTo(Run(EMPTY, es), pid))
    ensures var w := Run(EMPTY, es);
            w.rows[StoreKey(w.processes[pid].request)].card == CardOf(w.processes[pid].request)
  {
    WriteOnce(es, n);
    RunOk(EMPTY, es);
    var w := Run(EMPTY, es);
    var r := w.processes[pid].request;
    assert GoodProcess(w, pid);
    assert RowOk(w, StoreKey(r));
    if r.SkillRequest? { JoinedKeyInjective(r, w.processes[w.rows[StoreKey(r)].writer].request); }
  }

  /** Requests for one key converge: successful replies agree on everything but the idempotent
      flag, name one card, and at most one of them is not idempotent. */
  lemma RepliesConverge(es: seq<Event>, p: nat, q: nat)
    requires CanRun(EMPTY, es) && Succeeded(Run(EMPTY, es), p) && Succeeded(Run(EMPTY, es), q)
    requires var w := Run(EMPTY, es); StoreKey(w.processes[p].request) == StoreKey(w.processes[q].request)
    ensures var w := Run(EMPTY, es);
            var a, b := ReplyTo(w, p), ReplyTo(w, q);
            && a.(idempotent := true) == b.(idempotent := true)
            && CardOf(w.processes[p].request) == CardOf(w.processes[q].request)
            && (!a.idempotent && !b.idempotent ==> p == q)
  {
    RunOk(EMPTY, es);
    var w := Run(EMPTY, es);
    assert GoodProcess(w, p) && GoodProcess(w, q);
    if !ChecksCard(w.processes[p].request) {
      JoinedKeyInjective(w.processes[p].request, w.processes[q].request);
    }
  }

  /** The branch for a lost race without a readable row is unreachable. */
  lemma CanonicalRowAlwaysFound(es: seq<Event>, pid: nat)
    requires CanRun(EMPTY, es) && pid in Run(EMPTY, es).processes
    ensures Run(EMPTY, es).processes[pid].point != Finished(Rejected(NoCanonicalRow))
    ensures Run(EMPTY, es).processes[pid].point.Reloaded? ==> Run(EMPTY, es).processes[pid].point.found.Some?
  {
    RunOk(EMPTY, es);
    assert GoodProcess(Run(EMPTY, es), pid);
  }

  // ----- refusals -----

  /** A check or a dependency that refuses ends the request with its own error, and leaves store
      and chain as they were: an invalid slug or a refused proof, a failed pin or one that is
      not an IPFS address, a failed transaction. */
  lemma RefusalEnds(w: World, pid: nat, a: Answer)
    requires Enabled(w, Advance(pid, a))
    ensures var point, r, w' := w.processes[pid].point, w.processes[pid].request, Step(w, Advance(pid, a));
            var reply := w'.processes[pid].point;
            && (point.Validating? && (!a.ok || (r.SkillRequest? && !IsSlug(r.skill))) ==>
                  reply == Finished(Rejected(Refused)) && w'.rows == w.rows && w'.chain == w.chain)
            && (point == Looked(None) && !a.ok ==>
                  reply == Finished(Rejected(Refused)) && w'.rows == w.rows && w'.chain == w.chain)
            && (point.Gated? && !(a.ok && |a.uri| >= 7 && a.uri[..7] == "ipfs://") ==>
                  reply == Finished(Rejected(PinFailed)) && w'.rows == w.rows && w'.chain == w.chain)
            && (point.Pinned? && !a.ok ==>
                  reply == Finished(Rejected(ChainFailed)) && w'.rows == w.rows && w'.chain == w.chain)
  {
    var r := w.processes[pid].request;
    if r.SkillRequest? { SlugIff(r.skill); }
  }

  /** What a transaction on the chain says about its request. */
  ghost predicate Earned(w: World, x: Issue) {
    && x.issuer in w.processes
    && var r := w.processes[x.issuer].request;
       x.key == StoreKey(r) && x.card == CardOf(r) && IpfsUri(x.uri) && Valid(r)
  }

  ghost predicate PinnedWell(w: World) {
    forall pid :: pid in w.processes && w.processes[pid].point.Pinned? ==>
      IpfsUri(w.processes[pid].point.uri) && Valid(w.processes[pid].request)
  }

  ghost predicate GatedWell(w: World) {
    forall pid :: pid in w.processes && (w.processes[pid].point.Looked? || w.processes[pid].point.Gated?) ==>
      Valid(w.processes[pid].request)
  }

  ghost predicate AllEarned(w: World) {
    && PinnedWell(w) && GatedWell(w)
    && forall i :: 0 <= i < |w.chain| ==> Earned(w, w.chain[i])
  }

  lemma GatedStep(w: World, e: Event)
    requires Enabled(w, e) && GatedWell(w)
    ensures GatedWell(Step(w, e))
  {
  }

  lemma PinnedStep(w: World, e: Event)
    requires Enabled(w, e) && GatedWell(w) && PinnedWell(w)
    ensures PinnedWell(Step(w, e))
  {
  }

  lemma SubmittedEarned(w: World, pid: nat, a: Answer)
    requires pid in w.processes && w.processes[pid].point.Pinned? && PinnedWell(w)
    ensures var w' := Step(w, Advance(pid, a));
            |w'.chain| > |w.chain| ==> Earned(w', w'.chain[|w.chain|])
  {
  }

  lemma EarnedStays(w: World, w': World, x: Issue)
    requires Earned(w, x) && Extends(w', w)
    ensures Earned(w', x)
  {
  }

  lemma EarnedStep(w: World, e: Event)
    requires Enabled(w, e) && AllEarned(w)
    ensures AllEarned(Step(w, e))
  {
    var w' := Step(w, e);
    GatedStep(w, e);
    PinnedStep(w, e);
    StepExtends(w, e);
    ChainStep(w, e);
    forall i | 0 <= i < |w'.chain| ensures Earned(w', w'.chain[i]) {
      if i < |w.chain| {
        assert w'.chain[i] == w.chain[i];
        EarnedStays(w, w', w.chain[i]);
      } else {
        SubmittedEarned(w, e.pid, e.answer);
      }
    }
  }

  /** Over every run a transaction is submitted only by a valid request, for its own key and
      card, after a pin that is an IPFS address. */
  lemma {:induction false} TransactionsEarned(w: World, es: seq<Event>)
    requires AllEarned(w) && CanRun(w, es)
    ensures AllEarned(Run(w, es))
    decreases |es|
  {
    if |es| > 0 {
      EarnedStep(w, es[0]);
      TransactionsEarned(Step(w, es[0]), es[1..]);
    }
  }

  // ----- what the chain sees -----

  ghost predicate Issued(w: World, pid: nat) {
    exists i :: 0 <= i < |w.chain| && w.chain[i].issuer == pid
  }

  /** A request that has submitted is past that point, and submitted once. */
  ghost predicate ChainOk(w: World) {
    && (forall i :: 0 <= i < |w.chain| ==>
                    w.chain[i].issuer in w.processes && Submitted(w.processes[w.chain[i].issuer].point))
    && (forall i, j :: 0 <= i < j < |w.chain| ==> w.chain[i].issuer != w.chain[j].issuer)
  }

  predicate Submitted(p: Point) {
    p.OnChain? || p.Stored? || p.LostRace? || p.Reloaded? || p.Finished?
  }

  /** The chain grows by at most the moving request's own transaction. */
  lemma ChainStep(w: World, e: Event)
    requires Enabled(w, e)
    ensures Step(w, e).chain == w.chain
         || (e.Advance? && w.processes[e.pid].point.Pinned? && |Step(w, e).chain| == |w.chain| + 1
             && Step(w, e).chain[..|w.chain|] == w.chain && Step(w, e).chain[|w.chain|].issuer == e.pid
             && Step(w, e).processes[e.pid].point.OnChain?)
  {
  }

  lemma SubmittedStays(w: World, e: Event, q: nat)
    requires Enabled(w, e) && q in w.processes && Submitted(w.processes[q].point)
    ensures q in Step(w, e).processes && Submitted(Step(w, e).processes[q].point)
  {
  }

  lemma ChainStepOk(w: World, e: Event)
    requires Enabled(w, e) && ChainOk(w)
    ensures ChainOk(Step(w, e))
  {
    var w' := Step(w, e);
    ChainStep(w, e);
    forall i | 0 <= i < |w.chain| ensures w'.chain[i] == w.chain[i] && w.chain[i].issuer in w'.processes
                                          && Submitted(w'.processes[w.chain[i].issuer].point)
    {
      assert w'.chain[..|w.chain|][i] == w'.chain[i];
      SubmittedStays(w, e, w.chain[i].issuer);
    }
  }

  /** Over every run each request submits at most one transaction. */
  lemma {:induction false} OneTransactionPerRequest(w: World, es: seq<Event>)
    requires ChainOk(w) && CanRun(w, es)
    ensures ChainOk(Run(w, es))
    decreases |es|
  {
    if |es| > 0 {
      ChainStepOk(w, es[0]);
      OneTransactionPerRequest(Step(w, es[0]), es[1..]);
    }
  }

  /** The key is bound and the request has not looked yet, or found a row, or is done. */
  ghost predicate Late(w: World, pid: nat) {
    && pid in w.processes && StoreKey(w.processes[pid].request) in w.rows
    && (w.processes[pid].point.Validating? || w.processes[pid].point.Finished?
        || (w.processes[pid].point.Looked? && w.processes[pid].point.seen.Some?))
  }

  /** A request whose key is bound before its lookup never submits a transaction, to the end
      of every run. */
  lemma {:induction false} LateRequestNeverIssues(w: World, es: seq<Event>, pid: nat)
    requires Late(w, pid) && CanRun(w, es)
    ensures Late(Run(w, es), pid) && (Issued(Run(w, es), pid) <==> Issued(w, pid))
    decreases |es|
  {
    if |es| > 0 {
      var e := es[0];
      LateStep(w, e, pid);
      LateRequestNeverIssues(Step(w, e), es[1..], pid);
    }
  }

  lemma LateStep(w: World, e: Event, pid: nat)
    requires Late(w, pid) && Enabled(w, e)
    ensures Late(Step(w, e), pid) && (Issued(Step(w, e), pid) <==> Issued(w, pid))
  {
    StillLate(w, e, pid);
    ChainStep(w, e);
    IssuedUnchanged(w, Step(w, e), pid);
  }

  lemma StillLate(w: World, e: Event, pid: nat)
    requires Late(w, pid) && Enabled(w, e)
    ensures Late(Step(w, e), pid)
  {
  }

  lemma IssuedUnchanged(w: World, w': World, pid: nat)
    requires w'.chain == w.chain
          || (|w'.chain| == |w.chain| + 1 && w'.chain[..|w.chain|] == w.chain && w'.chain[|w.chain|].issuer != pid)
    ensures Issued(w', pid) <==> Issued(w, pid)
  {
    if w'.chain != w.chain {
      assert forall i :: 0 <= i < |w.chain| ==> w'.chain[..|w.chain|][i] == w'.chain[i];
    }
  }

  /** Four answers in a row, to the point after the transaction. */
  lemma UnboundRequestCanIssue(w: World, pid: nat) returns (es: seq<Event>)
    requires pid in w.processes && w.processes[pid].point.Validating? && Valid(w.processes[pid].request)
    requires StoreKey(w.processes[pid].request) !in w.rows
    ensures CanRun(w, es) && Issued(Run(w, es), pid)
  {
    var e := Advance(pid, YES);
    var w1 := Step(w, e);
    assert w1.processes[pid].point == Looked(None);
    var w2 := Step(w1, e);
    assert w2.processes[pid].point == Gated;
    var w3 := Step(w2, e);
    assert w3.processes[pid].point == Pinned("ipfs://x", "h");
    var w4 := Step(w3, e);
    assert w4.chain[|w3.chain|].issuer == pid;
    var es4 := [e] + [];
    var es3 := [e] + es4;
    var es2 := [e] + es3;
    es := [e] + es2;
    RunCons(w3, e, []);
    RunCons(w2, e, es4);
    RunCons(w1, e, es3);
    RunCons(w, e, es2);
  }

  lemma RunCons(w: World, e: Event, rest: seq<Event>)
    requires Enabled(w, e) && CanRun(Step(w, e), rest)
    ensures CanRun(w, [e] + rest) && Run(w, [e] + rest) == Run(Step(w, e), rest)
  {
    assert ([e] + rest)[1..] == rest;
  }

  ghost predicate MayIssue(w: World, pid: nat) {
    exists es :: CanRun(w, es) && Issued(Run(w, es), pid)
  }

  /** When double issuance is excluded: in every reachable world, a valid request that has not
      looked yet can still come to submit a transaction exactly if its key is unbound. */
  lemma IssuesIffUnbound(es: seq<Event>, pid: nat)
    requires CanRun(EMPTY, es) && pid in Run(EMPTY, es).processes
    requires var p := Run(EMPTY, es).processes[pid]; p.point.Validating? && Valid(p.request)
    ensures MayIssue(Run(EMPTY, es), pid) <==> StoreKey(Run(EMPTY, es).processes[pid].request) !in Run(EMPTY, es).rows
  {
    var w := Run(EMPTY, es);
    OneTransactionPerRequest(EMPTY, es);
    if StoreKey(w.processes[pid].request) !in w.rows {
      var more := UnboundRequestCanIssue(w, pid);
    } else {
      forall more | CanRun(w, more) ensures !Issued(Run(w, more), pid) {
        LateRequestNeverIssues(w, more, pid);
      }
    }
  }

  const YES: Answer := Answer(true, "ipfs://x", "h", "pda", "tx")

  /** Both requests advance by one point. */
  ghost function Both(w: World): World
    requires 0 in w.processes && 1 in w.processes
    requires !w.processes[0].point.Finished? && !w.processes[1].point.Finished?
  {
    Step(Step(w, Advance(0, YES)), Advance(1, YES))
  }

  lemma RunBoth(w: World, rest: seq<Event>)
    requires 0 in w.processes && 1 in w.processes
    requires !w.processes[0].point.Finished? && !w.processes[1].point.Finished?
    requires CanRun(Both(w), rest)
    ensures var es := [Advance(0, YES), Advance(1, YES)] + rest;
            CanRun(w, es) && Run(w, es) == Run(Both(w), rest)
  {
    var es := [Advance(0, YES), Advance(1, YES)] + rest;
    assert es[1..] == [Advance(1, YES)] + rest && es[1..][1..] == rest;
  }

  /** The world of two requests for the same thing. */
  ghost function Pair(r: Request, p: Point, q: Point, chain: seq<Issue>): World {
    World(map[], map[0 := Process(r, p), 1 := Process(r, q)], chain)
  }

  ghost function OwnIssue(r: Request, pid: nat): Issue {
    Issue(StoreKey(r), CardOf(r), "pda", "tx", "ipfs://x", "h", pid)
  }

  lemma BothAdvance(r: Request)
    requires r.WorldcoinRequest?
    ensures var p := Pinned("ipfs://x", "h");
            && Both(Pair(r, Validating, Validating, [])) == Pair(r, Looked(None), Looked(None), [])
            && Both(Pair(r, Looked(None), Looked(None), [])) == Pair(r, Gated, Gated, [])
            && Both(Pair(r, Gated, Gated, [])) == Pair(r, p, p, [])
            && Both(Pair(r, p, p, [])).chain == [OwnIssue(r, 0), OwnIssue(r, 1)]
  {
  }

  /** The order of the code (transaction first, binding after) lets two overlapping requests for
      one key and card both issue on the chain, against the comment on reserving first. */
  lemma OverlapIssuesTwice(r: Request) returns (es: seq<Event>)
    requires r.WorldcoinRequest?
    ensures CanRun(EMPTY, es) && Run(EMPTY, es).chain == [OwnIssue(r, 0), OwnIssue(r, 1)]
  {
    var both := [Advance(0, YES), Advance(1, YES)];
    var w := Pair(r, Validating, Validating, []);
    BothAdvance(r);
    var es4 := both + [];
    var es3 := both + es4;
    var es2 := both + es3;
    RunBoth(Both(Both(Both(w))), []);
    RunBoth(Both(Both(w)), es4);
    RunBoth(Both(w), es3);
    RunBoth(w, es2);
    es := [Start(0, r), Start(1, r)] + (both + es2);
    TwoStarts(r, both + es2);
  }

  lemma TwoStarts(r: Request, rest: seq<Event>)
    requires CanRun(Pair(r, Validating, Validating, []), rest)
    ensures var es := [Start(0, r), Start(1, r)] + rest;
            CanRun(EMPTY, es) && Run(EMPTY, es) == Run(Pair(r, Validating, Validating, []), rest)
  {
    var es := [Start(0, r), Start(1, r)] + rest;
    assert es[1..] == [Start(1, r)] + rest && es[1..][1..] == rest;
    assert Step(Step(EMPTY, Start(0, r)), Start(1, r)) == Pair(r, Validating, Validating, []);
  }
}
