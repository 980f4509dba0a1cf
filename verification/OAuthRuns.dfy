/** Every run of the OAuth provider: handler calls that complete, calls cut off after any of
    their writes, and restarts that reload the files. */
module OAuthRuns {
  import opened Common
  import opened OAuthProvider

  /** Who a token family belongs to. */
  datatype Owner = Owner(address: string, client: string, scope: seq<string>)

  /** A family created by exchanging a code, in memory and on disk. */
  datatype Grant = Grant(code: Id, family: Id)

  /** What has happened so far: identifiers ever drawn, the owner of every family, tokens whose
      rotation was answered, families whose reuse was answered, codes issued and exchanged. */
  datatype History = History(issued: set<Id>, owners: map<Id, Owner>, rotated: set<Id>, dead: set<Id>,
                             codes: map<Id, Pending>, grants: seq<Grant>)

  datatype World = World(mem: Memory, disk: Disk, hist: History)

  datatype Request =
    | Issue(newCode: Id, pending: Pending)
    | Exchange(client: string, code: Id, redirect: Option<string>, now: int, newToken: Id, newFamily: Id)
    | Refresh(refreshClient: string, token: Id, at: int, next: Id)
    | Revoke(revoked: Id, revokedAt: int)

  datatype Event =
    | Call(request: Request)
    | Crash(cut: Request, written: nat, reload: Reload)
    | Restart(again: Reload)

  /** The clock and the random families of a restart. */
  datatype Reload = Reload(now: int, refreshTtl: int, drawn: map<Id, Id>)

  function Handle(m: Memory, d: Disk, r: Request): Outcome {
    match r
    case Issue(c, p) => IssueAuthCode(m, d, c, p)
    case Exchange(client, code, redirect, now, token, family) =>
      ExchangeCode(m, d, client, code, redirect, now, token, family)
    case Refresh(client, token, now, next) => ExchangeRefresh(m, d, client, token, now, next)
    case Revoke(token, now) => RevokeToken(m, d, token, now)
  }

  /** The identifiers a request draws at random. */
  function Drawn(r: Request): set<Id> {
    match r
    case Issue(c, _) => {c}
    case Exchange(_, _, _, _, token, family) => {token, family}
    case Refresh(_, _, _, next) => {next}
    case Revoke(_, _) => {}
  }

  /** The files after the first k writes. */
  function DiskAfter(d: Disk, o: Outcome, k: nat): Disk
    requires k <= |o.writes|
  {
    if k == 0 then d else o.writes[k - 1]
  }

  function OwnerOf(e: Entry): Owner {
    Owner(e.address, e.client, e.scope)
  }

  // ----- steps -----

  /** Identifiers, code and owner of a new family are on record as soon as they are drawn. */
  function Begun(h: History, m: Memory, r: Request): History {
    var h' := h.(issued := h.issued + Drawn(r));
    match r
    case Issue(c, p) => h'.(codes := h.codes[c := p])
    case Exchange(client, code, _, _, _, family) =>
      if code !in m.codes then h'
      else h'.(owners := h.owners[family := Owner(m.codes[code].address, client, m.codes[code].scope)])
    case _ => h'
  }

  /** A family is granted once its first token is written. */
  function Granted(h: History, r: Request, o: Outcome): History {
    if r.Exchange? && o.reply.Tokens? then h.(grants := h.grants + [Grant(r.code, r.newFamily)]) else h
  }

  /** What a reply promises. */
  function Answered(h: History, r: Request, o: Outcome): History {
    if r.Refresh? && o.reply.Tokens? then h.(rotated := h.rotated + {r.token})
    else if o.reply.ReuseDetected? then h.(dead := h.dead + {o.reply.family})
    else h
  }

  /** The history with which a cut-off request is reloaded. */
  function CutHistory(w: World, r: Request, k: nat): History {
    var o, h := Handle(w.mem, w.disk, r), Begun(w.hist, w.mem, r);
    if k == |o.writes| then Granted(h, r, o) else h
  }

  predicate ValidReload(d: Disk, issued: set<Id>, l: Reload) {
    && d.legacy <= l.drawn.Keys
    && (forall t :: t in d.legacy ==> l.drawn[t] !in issued)
    && (forall t, u :: t in d.legacy && u in d.legacy && l.drawn[t] == l.drawn[u] ==> t == u)
  }

  ghost function Reloaded(d: Disk, h: History, l: Reload): World
    requires ValidReload(d, h.issued, l)
  {
    var families := set t | t in d.legacy :: l.drawn[t];
    var m := Load(d, l.now, l.refreshTtl, l.drawn);
    World(m, d, h.(issued := h.issued + families, owners := LegacyOwners(h.owners, d, l)))
  }

  /** Each new family is owned by whom its legacy token was written for. */
  ghost function LegacyOwners(owners: map<Id, Owner>, d: Disk, l: Reload): map<Id, Owner>
    requires d.legacy <= l.drawn.Keys
    requires forall t, u :: t in d.legacy && u in d.legacy && l.drawn[t] == l.drawn[u] ==> t == u
  {
    owners + map t | t in d.legacy && t in d.live :: l.drawn[t] := OwnerOf(d.live[t])
  }

  /** Whether an event can happen: random identifiers are new. */
  predicate Enabled(w: World, e: Event) {
    match e
    case Call(r) => Drawn(r) !! w.hist.issued
    case Crash(r, k, l) =>
      var o := Handle(w.mem, w.disk, r);
      Drawn(r) !! w.hist.issued && k <= |o.writes| && ValidReload(DiskAfter(w.disk, o, k), w.hist.issued + Drawn(r), l)
    case Restart(l) => ValidReload(w.disk, w.hist.issued, l)
  }

  ghost function Step(w: World, e: Event): World
    requires Enabled(w, e)
  {
    match e
    case Call(r) =>
      var o := Handle(w.mem, w.disk, r);
      World(o.mem, DiskAfter(w.disk, o, |o.writes|), Answered(Granted(Begun(w.hist, w.mem, r), r, o), r, o))
    case Crash(r, k, l) =>
      var o := Handle(w.mem, w.disk, r);
      Reloaded(DiskAfter(w.disk, o, k), CutHistory(w, r, k), l)
    case Restart(l) => Reloaded(w.disk, w.hist, l)
  }

  ghost predicate CanRun(w: World, es: seq<Event>)
    decreases |es|
  {
    |es| == 0 || (Enabled(w, es[0]) && CanRun(Step(w, es[0]), es[1..]))
  }

  ghost function Run(w: World, es: seq<Event>): World
    requires CanRun(w, es)
    decreases |es|
  {
    if |es| == 0 then w else Run(Step(w, es[0]), es[1..])
  }

  // ----- the invariant -----

  predicate IsGranted(h: History, c: Id) {
    exists i :: 0 <= i < |h.grants| && h.grants[i].code == c
  }

  ghost predicate HistoryOk(h: History) {
    && h.owners.Keys <= h.issued && h.rotated <= h.issued && h.dead <= h.issued && h.codes.Keys <= h.issued
    && (forall i, j :: 0 <= i < j < |h.grants| ==> h.grants[i].code != h.grants[j].code)
    && (forall i :: 0 <= i < |h.grants| ==> GrantOk(h, h.grants[i]))
  }

  /** A granted family belongs to whom the code was issued for. */
  predicate GrantOk(h: History, g: Grant) {
    g.code in h.codes && g.family in h.owners
    && h.owners[g.family] == Owner(h.codes[g.code].address, h.codes[g.code].client, h.codes[g.code].scope)
  }

  /** A live token is not retired or rotated, and its family is owned and not dead. */
  predicate TokenOk(t: Id, e: Entry, h: History) {
    t !in h.rotated && e.family !in h.dead && e.family in h.owners && h.owners[e.family] == OwnerOf(e)
  }

  predicate CodeOk(c: Id, p: Pending, h: History) {
    c in h.codes && h.codes[c] == p && !IsGranted(h, c)
  }

  /** What the files satisfy after any write. */
  ghost predicate DiskOk(d: Disk, h: History) {
    && d.live.Keys <= h.issued && d.retired.Keys <= h.issued && d.codes.Keys <= h.issued && d.legacy <= d.live.Keys
    && (forall t :: t in d.retired ==> d.retired[t].family in h.issued)
    && (forall t :: t in d.live ==> t !in d.retired && t !in h.rotated)
    && (forall t :: t in d.live && t !in d.legacy ==> TokenOk(t, d.live[t], h))
    && (forall t, u :: t in d.live && u in d.live && t !in d.legacy && u !in d.legacy ==>
                         d.live[t].family != d.live[u].family || t == u)
    && (forall c :: c in d.codes ==> CodeOk(c, d.codes[c], h))
  }

  /** The maps as a disk on which every family is known. */
  function AsDisk(m: Memory): Disk {
    Disk(m.codes, m.live, m.retired, {})
  }

  /** The maps are the files, except that legacy families are known and expired rows gone. */
  ghost predicate Agree(m: Memory, d: Disk) {
    && m.live.Keys == d.live.Keys
    && (forall t :: t in m.live ==> OwnerOf(m.live[t]) == OwnerOf(d.live[t]))
    && (forall t :: t in m.live && t !in d.legacy ==> m.live[t] == d.live[t])
    && (forall c :: c in m.codes ==> c in d.codes && d.codes[c] == m.codes[c])
    && (forall t :: t in m.retired ==> t in d.retired)
  }

  ghost predicate Inv(w: World) {
    HistoryOk(w.hist) && DiskOk(w.disk, w.hist) && DiskOk(AsDisk(w.mem), w.hist) && Agree(w.mem, w.disk)
  }

  // ----- restarts -----

  lemma ReloadHistory(d: Disk, h: History, l: Reload)
    requires HistoryOk(h) && DiskOk(d, h) && ValidReload(d, h.issued, l)
    ensures var h' := Reloaded(d, h, l).hist;
            HistoryOk(h') && (forall f :: f in h.owners ==> f in h'.owners && h'.owners[f] == h.owners[f])
            && (forall t :: t in d.legacy ==> l.drawn[t] in h'.owners && h'.owners[l.drawn[t]] == OwnerOf(d.live[t]))
  {
    var h' := Reloaded(d, h, l).hist;
    forall f | f in h.owners ensures f in h'.owners && h'.owners[f] == h.owners[f] {
      assert f in h.issued;
    }
    forall i | 0 <= i < |h.grants| ensures GrantOk(h', h.grants[i]) {
      assert GrantOk(h, h.grants[i]);
    }
  }

  lemma ReloadedDisk(d: Disk, h: History, l: Reload)
    requires HistoryOk(h) && DiskOk(d, h) && ValidReload(d, h.issued, l)
    ensures DiskOk(d, Reloaded(d, h, l).hist)
  {
    ReloadHistory(d, h, l);
    var h' := Reloaded(d, h, l).hist;
    forall t | t in d.live && t !in d.legacy ensures TokenOk(t, d.live[t], h') {
      assert TokenOk(t, d.live[t], h);
    }
    forall c | c in d.codes ensures CodeOk(c, d.codes[c], h') {
      assert CodeOk(c, d.codes[c], h);
    }
  }

  lemma ReloadedToken(d: Disk, h: History, l: Reload, t: Id)
    requires HistoryOk(h) && DiskOk(d, h) && ValidReload(d, h.issued, l) && t in d.live
    ensures TokenOk(t, Reloaded(d, h, l).mem.live[t], Reloaded(d, h, l).hist)
  {
    ReloadHistory(d, h, l);
    if t in d.legacy {
      assert l.drawn[t] !in h.issued;
    } else {
      assert TokenOk(t, d.live[t], h);
    }
  }

  lemma ReloadedMemory(d: Disk, h: History, l: Reload)
    requires HistoryOk(h) && DiskOk(d, h) && ValidReload(d, h.issued, l)
    ensures var w := Reloaded(d, h, l); DiskOk(AsDisk(w.mem), w.hist)
  {
    var w := Reloaded(d, h, l);
    forall t | t in w.mem.live ensures TokenOk(t, w.mem.live[t], w.hist) {
      ReloadedToken(d, h, l, t);
    }
    forall c | c in w.mem.codes ensures CodeOk(c, w.mem.codes[c], w.hist) {
      assert CodeOk(c, d.codes[c], h);
    }
    forall t, u | t in w.mem.live && u in w.mem.live && w.mem.live[t].family == w.mem.live[u].family ensures t == u {
      LegacyFamiliesNew(d, h, l, t, u);
    }
  }

  lemma LoadAgrees(d: Disk, l: Reload)
    requires d.legacy <= l.drawn.Keys
    ensures Agree(Load(d, l.now, l.refreshTtl, l.drawn), d)
  {
  }

  lemma ReloadedOk(d: Disk, h: History, l: Reload)
    requires HistoryOk(h) && DiskOk(d, h) && ValidReload(d, h.issued, l)
    ensures Inv(Reloaded(d, h, l))
  {
    ReloadHistory(d, h, l);
    ReloadedDisk(d, h, l);
    ReloadedMemory(d, h, l);
    LoadAgrees(d, l);
  }

  lemma LegacyFamiliesNew(d: Disk, h: History, l: Reload, t: Id, u: Id)
    requires HistoryOk(h) && DiskOk(d, h) && ValidReload(d, h.issued, l) && t in d.live && u in d.live
    ensures var m := Load(d, l.now, l.refreshTtl, l.drawn).live; m[t].family == m[u].family ==> t == u
  {
    assert t in d.legacy || TokenOk(t, d.live[t], h);
    assert u in d.legacy || TokenOk(u, d.live[u], h);
  }

  // ----- drawing identifiers -----

  lemma BegunOk(w: World, r: Request)
    requires Inv(w) && Drawn(r) !! w.hist.issued
    ensures Inv(World(w.mem, w.disk, Begun(w.hist, w.mem, r)))
  {
    var h, h' := w.hist, Begun(w.hist, w.mem, r);
    forall i | 0 <= i < |h.grants| ensures GrantOk(h', h.grants[i]) {
      assert GrantOk(h, h.grants[i]);
    }
    BegunDisk(w.disk, h, w.mem, r);
    BegunDisk(AsDisk(w.mem), h, w.mem, r);
  }

  lemma BegunDisk(d: Disk, h: History, m: Memory, r: Request)
    requires HistoryOk(h) && DiskOk(d, h) && Drawn(r) !! h.issued
    ensures DiskOk(d, Begun(h, m, r))
  {
    var h' := Begun(h, m, r);
    forall t | t in d.live && t !in d.legacy ensures TokenOk(t, d.live[t], h') {
      assert TokenOk(t, d.live[t], h);
    }
    forall c | c in d.codes ensures CodeOk(c, d.codes[c], h') {
      assert CodeOk(c, d.codes[c], h);
    }
  }

  // ----- handlers -----

  /** What a completed handler establishes, with the promises of its reply. */
  ghost predicate HandlerOk(w: World, r: Request) {
    var o := Handle(w.mem, w.disk, r);
    HistoryOk(Granted(w.hist, r, o)) && OutcomeOk(w.disk, o, Answered(Granted(w.hist, r, o), r, o))
  }

  /** The maps and the files after each write agree with the history h. */
  ghost predicate OutcomeOk(d: Disk, o: Outcome, h: History) {
    && HistoryOk(h) && DiskOk(AsDisk(o.mem), h)
    && |o.writes| <= 2 && (|o.writes| == 2 ==> DiskOk(o.writes[0], h))
    && DiskOk(DiskAfter(d, o, |o.writes|), h)
    && Agree(o.mem, DiskAfter(d, o, |o.writes|))
  }

  lemma IssueOk(w: World, r: Request)
    requires Inv(w) && r.Issue? && r.newCode in w.hist.codes && w.hist.codes[r.newCode] == r.pending
    requires r.newCode in w.hist.issued && !IsGranted(w.hist, r.newCode)
    ensures HandlerOk(w, r)
  {
    AddCode(w, r.newCode, r.pending);
  }

  lemma AddCode(w: World, code: Id, p: Pending)
    requires Inv(w) && code in w.hist.issued && CodeOk(code, p, w.hist)
    ensures OutcomeOk(w.disk, IssueAuthCode(w.mem, w.disk, code, p), w.hist)
  {
    var codes := w.mem.codes[code := p];
    forall c | c in codes ensures CodeOk(c, codes[c], w.hist) {
      assert c == code || CodeOk(c, w.mem.codes[c], w.hist);
    }
    CodesReplaced(AsDisk(w.mem), codes, w.hist);
    CodesReplaced(w.disk, codes, w.hist);
  }

  lemma CodesReplaced(d: Disk, codes: map<Id, Pending>, h: History)
    requires DiskOk(d, h) && codes.Keys <= h.issued && forall c :: c in codes ==> CodeOk(c, codes[c], h)
    ensures DiskOk(d.(codes := codes), h)
  {
  }

  lemma BurnOk(w: World, code: Id)
    requires Inv(w) && code in w.mem.codes
    ensures var m' := w.mem.(codes := w.mem.codes - {code});
            Inv(World(m', WithCodes(w.disk, m'), w.hist))
  {
    var codes := w.mem.codes - {code};
    forall c | c in codes ensures CodeOk(c, codes[c], w.hist) {
      assert CodeOk(c, w.mem.codes[c], w.hist);
    }
    CodesReplaced(AsDisk(w.mem), codes, w.hist);
    CodesReplaced(w.disk, codes, w.hist);
  }

  /** Recording a grant of a code that is in neither map. */
  lemma GrantRecorded(w: World, code: Id, family: Id)
    requires Inv(w) && code in w.hist.codes && !IsGranted(w.hist, code) && code !in w.mem.codes && code !in w.disk.codes
    requires GrantOk(w.hist, Grant(code, family))
    ensures var h := w.hist.(grants := w.hist.grants + [Grant(code, family)]); Inv(World(w.mem, w.disk, h))
  {
    var h := w.hist.(grants := w.hist.grants + [Grant(code, family)]);
    forall i | 0 <= i < |h.grants| ensures GrantOk(h, h.grants[i]) {
      assert i < |w.hist.grants| ==> GrantOk(w.hist, w.hist.grants[i]);
    }
    GrantedDisk(w.disk, w.hist, code, family);
    GrantedDisk(AsDisk(w.mem), w.hist, code, family);
  }

  lemma GrantedDisk(d: Disk, h: History, code: Id, family: Id)
    requires DiskOk(d, h) && code !in d.codes
    ensures DiskOk(d, h.(grants := h.grants + [Grant(code, family)]))
  {
    var h' := h.(grants := h.grants + [Grant(code, family)]);
    forall t | t in d.live && t !in d.legacy ensures TokenOk(t, d.live[t], h') {
      assert TokenOk(t, d.live[t], h);
    }
    forall c | c in d.codes ensures CodeOk(c, d.codes[c], h') {
      assert CodeOk(c, d.codes[c], h);
    }
  }

  /** Adding a live token of a family that has none. */
  lemma AddToken(d: Disk, h: History, t: Id, e: Entry)
    requires DiskOk(d, h) && d.legacy == {} && t in h.issued && t !in d.retired && TokenOk(t, e, h)
    requires forall u :: u in d.live ==> d.live[u].family != e.family
    ensures DiskOk(d.(live := d.live[t := e]), h)
  {
  }

  /** The random identifiers of an exchange are new to this world. */
  ghost predicate NewGrant(w: World, r: Request) {
    && r.Exchange? && {r.newToken, r.newFamily} <= w.hist.issued && r.newFamily !in w.hist.dead
    && r.newToken !in w.mem.retired && r.newToken !in w.disk.retired && r.newToken !in w.hist.rotated
    && (forall t :: t in w.mem.live ==> w.mem.live[t].family != r.newFamily)
    && (r.code in w.mem.codes ==>
          r.newFamily in w.hist.owners
          && w.hist.owners[r.newFamily] == Owner(w.mem.codes[r.code].address, r.client, w.mem.codes[r.code].scope))
  }

  lemma BurnAndGrant(w: World, r: Request)
    requires Inv(w) && NewGrant(w, r) && Handle(w.mem, w.disk, r).reply.Tokens?
    ensures var burned := w.mem.(codes := w.mem.codes - {r.code});
            Inv(World(burned, WithCodes(w.disk, burned), Granted(w.hist, r, Handle(w.mem, w.disk, r))))
  {
    var burned := w.mem.(codes := w.mem.codes - {r.code});
    BurnOk(w, r.code);
    assert CodeOk(r.code, w.mem.codes[r.code], w.hist);
    GrantRecorded(World(burned, WithCodes(w.disk, burned), w.hist), r.code, r.newFamily);
  }

  lemma ExchangeSuccess(w: World, r: Request)
    requires Inv(w) && NewGrant(w, r) && Handle(w.mem, w.disk, r).reply.Tokens?
    ensures HandlerOk(w, r)
  {
    var o := Handle(w.mem, w.disk, r);
    var p := w.mem.codes[r.code];
    var burned := w.mem.(codes := w.mem.codes - {r.code});
    var v := World(burned, WithCodes(w.disk, burned), Granted(w.hist, r, o));
    ExchangeOutcome(w.mem, w.disk, r);
    BurnAndGrant(w, r);
    NewTokenOk(w, r, v.hist);
    assert v.mem.live == w.mem.live && v.mem.retired == w.mem.retired && v.disk.retired == w.disk.retired;
    TokenMinted(v, w.disk, o, r.newToken, Entry(p.address, r.client, p.scope, r.newFamily));
    assert Answered(v.hist, r, o) == v.hist;
  }

  lemma NewTokenOk(w: World, r: Request, h: History)
    requires NewGrant(w, r) && r.code in w.mem.codes
    requires h.rotated == w.hist.rotated && h.dead == w.hist.dead && h.owners == w.hist.owners
    ensures var p := w.mem.codes[r.code];
            TokenOk(r.newToken, Entry(p.address, r.client, p.scope, r.newFamily), h)
  {
  }

  lemma ExchangeOutcome(m: Memory, d: Disk, r: Request)
    requires r.Exchange? && Handle(m, d, r).reply.Tokens?
    ensures r.code in m.codes && m.codes[r.code].client == r.client
    ensures var p, burned := m.codes[r.code], m.(codes := m.codes - {r.code});
            var o, d' := Handle(m, d, r), WithCodes(d, burned);
            && o.mem == burned.(live := m.live[r.newToken := Entry(p.address, r.client, p.scope, r.newFamily)])
            && o.writes == [d', WithLive(d', o.mem)]
  {
  }

  lemma TokenMinted(w: World, d: Disk, o: Outcome, t: Id, e: Entry)
    requires Inv(w) && t in w.hist.issued && t !in w.mem.retired && t !in w.disk.retired && TokenOk(t, e, w.hist)
    requires forall u :: u in w.mem.live ==> w.mem.live[u].family != e.family
    requires o.mem == w.mem.(live := w.mem.live[t := e]) && o.writes == [w.disk, WithLive(w.disk, o.mem)]
    ensures OutcomeOk(d, o, w.hist)
  {
    FirstToken(w, t, e);
  }

  lemma FirstToken(w: World, t: Id, e: Entry)
    requires Inv(w) && t in w.hist.issued && t !in w.mem.retired && t !in w.disk.retired && TokenOk(t, e, w.hist)
    requires forall u :: u in w.mem.live ==> w.mem.live[u].family != e.family
    ensures var m' := w.mem.(live := w.mem.live[t := e]); Inv(World(m', WithLive(w.disk, m'), w.hist))
  {
    AddToken(AsDisk(w.mem), w.hist, t, e);
    AddToken(WithLive(w.disk, w.mem), w.hist, t, e);
  }

  lemma ExchangeOk(w: World, r: Request)
    requires Inv(w) && NewGrant(w, r)
    ensures HandlerOk(w, r)
  {
    var o := Handle(w.mem, w.disk, r);
    if o.reply.Tokens? {
      ExchangeSuccess(w, r);
    } else if r.code in w.mem.codes {
      BurnOk(w, r.code);
      OneWrite(w.disk, o, w.hist);
    } else {
      NothingWritten(w, InvalidGrant, w.hist);
    }
  }

  lemma OneWrite(d: Disk, o: Outcome, h: History)
    requires |o.writes| == 1 && Inv(World(o.mem, o.writes[0], h))
    ensures OutcomeOk(d, o, h)
  {
  }

  /** Writing the token maps after tokens were retired. */
  lemma TokenWritesOk(w: World, m: Memory, h: History)
    requires Inv(w) && DiskOk(AsDisk(m), h) && m.codes == w.mem.codes
    requires forall t :: t in m.live ==> t !in w.disk.retired
    requires w.hist.issued == h.issued && w.hist.codes == h.codes && w.hist.grants == h.grants
    ensures var ws := TokenWrites(w.disk, m); DiskOk(ws[0], h) && DiskOk(ws[1], h) && Agree(m, ws[1])
  {
    forall c | c in w.disk.codes ensures CodeOk(c, w.disk.codes[c], h) {
      assert CodeOk(c, w.disk.codes[c], w.hist);
    }
  }

  /** A history stays consistent when a promise about issued identifiers is recorded. */
  lemma PromiseRecorded(h: History, rotated: set<Id>, dead: set<Id>)
    requires HistoryOk(h) && rotated <= h.issued && dead <= h.issued
    ensures HistoryOk(h.(rotated := h.rotated + rotated)) && HistoryOk(h.(dead := h.dead + dead))
  {
    forall i | 0 <= i < |h.grants|
      ensures GrantOk(h.(rotated := h.rotated + rotated), h.grants[i])
      ensures GrantOk(h.(dead := h.dead + dead), h.grants[i])
    {
      assert GrantOk(h, h.grants[i]);
    }
  }

  /** Retiring tokens, and recording a rotation or a dead family that the maps no longer hold. */
  lemma RetireOk(m: Memory, m': Memory, h: History, rotated: set<Id>, dead: set<Id>)
    requires DiskOk(AsDisk(m), h) && m'.codes == m.codes && m'.retired.Keys <= h.issued
    requires forall t :: t in m'.retired ==> m'.retired[t].family in h.issued
    requires m'.live.Keys <= m.live.Keys && (forall t :: t in m'.live ==> m'.live[t] == m.live[t] && t !in m'.retired)
    requires forall t :: t in m'.live ==> t !in rotated && m'.live[t].family !in dead
    ensures DiskOk(AsDisk(m'), h.(rotated := h.rotated + rotated, dead := h.dead + dead))
  {
    var h' := h.(rotated := h.rotated + rotated, dead := h.dead + dead);
    forall t | t in m'.live ensures TokenOk(t, m'.live[t], h') {
      assert TokenOk(t, m.live[t], h);
    }
    forall c | c in m'.codes ensures CodeOk(c, m'.codes[c], h') {
      assert CodeOk(c, m.codes[c], h);
    }
  }

  /** A handler that writes both token maps. */
  lemma TokensWritten(w: World, o: Outcome, h: History)
    requires Inv(w) && HistoryOk(h) && DiskOk(AsDisk(o.mem), h)
    requires o.writes == TokenWrites(w.disk, o.mem) && o.mem.codes == w.mem.codes
    requires forall t :: t in o.mem.live ==> t !in w.disk.retired
    requires w.hist.issued == h.issued && w.hist.codes == h.codes && w.hist.grants == h.grants
    ensures OutcomeOk(w.disk, o, h)
  {
    TokenWritesOk(w, o.mem, h);
  }

  lemma RetireOne(w: World, token: Id, now: int, rotated: set<Id>)
    requires Inv(w) && token in w.mem.live && rotated <= {token}
    ensures DiskOk(AsDisk(Retire(w.mem, token, now)), w.hist.(rotated := w.hist.rotated + rotated))
  {
    var m' := Retire(w.mem, token, now);
    assert TokenOk(token, w.mem.live[token], w.hist);
    RetireOk(w.mem, m', w.hist, rotated, {});
    assert w.hist.(rotated := w.hist.rotated + rotated, dead := w.hist.dead + {})
        == w.hist.(rotated := w.hist.rotated + rotated);
  }

  /** The new token of a rotation is new to this world. */
  ghost predicate NewToken(w: World, r: Request) {
    && r.Refresh? && r.next in w.hist.issued && r.next !in w.mem.retired && r.next !in w.disk.retired
    && r.next !in w.hist.rotated && r.next != r.token
  }

  lemma RotatedMemory(w: World, r: Request)
    requires Inv(w) && NewToken(w, r) && Handle(w.mem, w.disk, r).reply.Tokens?
    ensures var o := Handle(w.mem, w.disk, r);
            DiskOk(AsDisk(o.mem), Answered(w.hist, r, o)) && forall t :: t in o.mem.live ==> t !in w.disk.retired
  {
    var o := Handle(w.mem, w.disk, r);
    var e := w.mem.live[r.token];
    RetireOne(w, r.token, r.at, {r.token});
    assert TokenOk(r.token, e, w.hist);
    AddToken(AsDisk(Retire(w.mem, r.token, r.at)), Answered(w.hist, r, o), r.next, e);
  }

  lemma RotateOk(w: World, r: Request)
    requires Inv(w) && NewToken(w, r) && Handle(w.mem, w.disk, r).reply.Tokens?
    ensures HandlerOk(w, r)
  {
    RotatesIff(w.mem, w.disk, r);
    RotationOutcome(w.mem, w.disk, r);
    RotatedMemory(w, r);
    TokensWritten(w, Handle(w.mem, w.disk, r), w.hist.(rotated := w.hist.rotated + {r.token}));
  }

  lemma RotationOutcome(m: Memory, d: Disk, q: Request)
    requires Rotates(m, q)
    ensures var m' := Handle(m, d, q).mem;
            && m'.codes == m.codes
            && Handle(m, d, q) == Outcome(m', TokenWrites(d, m'), Tokens(q.next, m.live[q.token].scope))
  {
  }

  lemma ReuseMemory(w: World, f: Id, now: int)
    requires Inv(w) && f in w.hist.issued
    ensures var m' := RetireAll(w.mem, Members(w.mem, f), f, now);
            DiskOk(AsDisk(m'), w.hist.(dead := w.hist.dead + {f})) && forall t :: t in m'.live ==> t in w.mem.live
  {
    var m' := RetireAll(w.mem, Members(w.mem, f), f, now);
    RetiredMembers(w.mem, w.hist.issued, f, now);
    RetireOk(w.mem, m', w.hist, {}, {f});
    assert w.hist.(rotated := w.hist.rotated + {}, dead := w.hist.dead + {f}) == w.hist.(dead := w.hist.dead + {f});
  }

  lemma RetiredMembers(m: Memory, issued: set<Id>, f: Id, now: int)
    requires f in issued && m.live.Keys <= issued && m.retired.Keys <= issued && m.live.Keys !! m.retired.Keys
    requires forall t :: t in m.retired ==> m.retired[t].family in issued
    ensures var m' := RetireAll(m, Members(m, f), f, now);
            && m'.codes == m.codes && m'.retired.Keys <= issued && m'.live.Keys <= m.live.Keys
            && (forall t :: t in m'.retired ==> m'.retired[t].family in issued)
            && (forall t :: t in m'.live ==> m'.live[t] == m.live[t] && t !in m'.retired && m'.live[t].family != f)
  {
  }

  /** Nothing to revoke: nothing is written, and nothing on disk needs to be. */
  lemma ReuseNothing(w: World, r: Request)
    requires Inv(w) && r.Refresh? && r.token in w.mem.retired && w.mem.retired[r.token].family in w.hist.issued
    requires Members(w.mem, w.mem.retired[r.token].family) == {}
    ensures HandlerOk(w, r)
  {
    var f := w.mem.retired[r.token].family;
    DeadEverywhere(w, f);
    PromiseRecorded(w.hist, {}, {f});
    ReuseOutcome(w.mem, w.disk, r);
    NothingWritten(w, ReuseDetected(f), w.hist.(dead := w.hist.dead + {f}));
  }

  lemma DeadEverywhere(w: World, f: Id)
    requires Inv(w) && Members(w.mem, f) == {}
    ensures DiskOk(AsDisk(w.mem), w.hist.(dead := w.hist.dead + {f}))
    ensures DiskOk(w.disk, w.hist.(dead := w.hist.dead + {f}))
  {
    assert forall t :: t in w.mem.live ==> t !in Members(w.mem, f);
    DeadFamily(AsDisk(w.mem), w.hist, f);
    DeadFamily(w.disk, w.hist, f);
  }

  lemma NothingWritten(w: World, reply: Reply, h: History)
    requires HistoryOk(h) && DiskOk(AsDisk(w.mem), h) && DiskOk(w.disk, h) && Agree(w.mem, w.disk)
    ensures OutcomeOk(w.disk, Outcome(w.mem, [], reply), h)
  {
  }

  lemma ReuseOutcome(m: Memory, d: Disk, r: Request)
    requires r.Refresh? && r.token in m.retired && Members(m, m.retired[r.token].family) == {}
    ensures Handle(m, d, r) == Outcome(m, [], ReuseDetected(m.retired[r.token].family))
  {
    RetireNothing(m, m.retired[r.token].family, r.at);
  }

  lemma RetireNothing(m: Memory, f: Id, now: int)
    ensures RetireAll(m, {}, f, now) == m
  {
  }

  lemma ReuseSome(w: World, r: Request)
    requires Inv(w) && r.Refresh? && r.token in w.mem.retired && w.mem.retired[r.token].family in w.hist.issued
    requires Members(w.mem, w.mem.retired[r.token].family) != {}
    ensures HandlerOk(w, r)
  {
    var f := w.mem.retired[r.token].family;
    ReuseWrites(w.mem, w.disk, r);
    FamilyRetired(w, f, r.at, Handle(w.mem, w.disk, r));
    assert Answered(w.hist, r, Handle(w.mem, w.disk, r)) == w.hist.(dead := w.hist.dead + {f});
    Concluded(w, r, Handle(w.mem, w.disk, r));
  }

  /** A handler that grants nothing is right if its outcome agrees with the promise of its reply. */
  lemma Concluded(w: World, r: Request, o: Outcome)
    requires HistoryOk(w.hist) && !r.Exchange? && o == Handle(w.mem, w.disk, r)
    requires OutcomeOk(w.disk, o, Answered(w.hist, r, o))
    ensures HandlerOk(w, r)
  {
  }

  lemma FamilyRetired(w: World, f: Id, now: int, o: Outcome)
    requires Inv(w) && f in w.hist.issued
    requires o.mem == RetireAll(w.mem, Members(w.mem, f), f, now) && o.writes == TokenWrites(w.disk, o.mem)
    ensures OutcomeOk(w.disk, o, w.hist.(dead := w.hist.dead + {f}))
  {
    ReuseMemory(w, f, now);
    LiveNotRetired(w);
    PromiseRecorded(w.hist, {}, {f});
    TokensWritten(w, o, w.hist.(dead := w.hist.dead + {f}));
  }

  lemma LiveNotRetired(w: World)
    requires Inv(w)
    ensures forall t :: t in w.mem.live ==> t !in w.disk.retired
  {
  }

  lemma ReuseWrites(m: Memory, d: Disk, r: Request)
    requires r.Refresh? && r.token in m.retired && Members(m, m.retired[r.token].family) != {}
    ensures var f := m.retired[r.token].family;
            var m' := RetireAll(m, Members(m, f), f, r.at);
            Handle(m, d, r) == Outcome(m', TokenWrites(d, m'), ReuseDetected(f)) && m'.codes == m.codes
  {
  }

  lemma RetiredFamilyIssued(w: World, t: Id)
    requires Inv(w) && t in w.mem.retired
    ensures w.mem.retired[t].family in w.hist.issued
  {
    assert AsDisk(w.mem).retired[t].family in w.hist.issued;
  }

  lemma ReuseOk(w: World, r: Request)
    requires Inv(w) && r.Refresh? && r.token in w.mem.retired
    ensures HandlerOk(w, r)
  {
    RetiredFamilyIssued(w, r.token);
    if Members(w.mem, w.mem.retired[r.token].family) == {} {
      ReuseNothing(w, r);
    } else {
      ReuseSome(w, r);
    }
  }

  lemma DeadFamily(d: Disk, h: History, f: Id)
    requires DiskOk(d, h) && forall t :: t in d.live && t !in d.legacy ==> d.live[t].family != f
    ensures DiskOk(d, h.(dead := h.dead + {f}))
  {
    var h' := h.(dead := h.dead + {f});
    forall t | t in d.live && t !in d.legacy ensures TokenOk(t, d.live[t], h') {
      assert TokenOk(t, d.live[t], h);
    }
    forall c | c in d.codes ensures CodeOk(c, d.codes[c], h') {
      assert CodeOk(c, d.codes[c], h);
    }
  }

  lemma RevokeOk(w: World, r: Request)
    requires Inv(w) && r.Revoke?
    ensures HandlerOk(w, r)
  {
    if r.revoked in w.mem.live {
      RevokeOutcome(w.mem, w.disk, r);
      OneRetired(w, r.revoked, r.revokedAt, Handle(w.mem, w.disk, r));
    } else {
      NothingWritten(w, Done, w.hist);
    }
    assert Answered(w.hist, r, Handle(w.mem, w.disk, r)) == w.hist;
    Concluded(w, r, Handle(w.mem, w.disk, r));
  }

  lemma OneRetired(w: World, t: Id, now: int, o: Outcome)
    requires Inv(w) && t in w.mem.live
    requires o.mem == Retire(w.mem, t, now) && o.writes == TokenWrites(w.disk, o.mem)
    ensures OutcomeOk(w.disk, o, w.hist)
  {
    RetireQuietly(w, t, now);
    LiveNotRetired(w);
    assert o.mem.codes == w.mem.codes && o.mem.live.Keys <= w.mem.live.Keys;
    TokensWritten(w, o, w.hist);
  }

  lemma RetireQuietly(w: World, t: Id, now: int)
    requires Inv(w) && t in w.mem.live
    ensures DiskOk(AsDisk(Retire(w.mem, t, now)), w.hist)
  {
    RetireOne(w, t, now, {});
    assert w.hist == w.hist.(rotated := w.hist.rotated + {});
  }

  lemma RevokeOutcome(m: Memory, d: Disk, r: Request)
    requires r.Revoke? && r.revoked in m.live
    ensures var m' := Retire(m, r.revoked, r.revokedAt);
            && Handle(m, d, r) == Outcome(m', TokenWrites(d, m'), Done)
            && m'.codes == m.codes && m'.live.Keys <= m.live.Keys
  {
  }

  // ----- steps and runs -----

  lemma CallOk(w: World, r: Request)
    requires Inv(w) && Drawn(r) !! w.hist.issued
    ensures HandlerOk(World(w.mem, w.disk, Begun(w.hist, w.mem, r)), r)
  {
    BegunOk(w, r);
    var v := World(w.mem, w.disk, Begun(w.hist, w.mem, r));
    match r
    case Issue(c, _) =>
      CodeNotGranted(w, c);
      IssueOk(v, r);
    case Exchange(_, _, _, _, _, _) =>
      ExchangeIsNew(w, r);
      ExchangeOk(v, r);
    case Refresh(_, token, _, next) =>
      if token in w.mem.retired {
        ReuseOk(v, r);
      } else if Handle(w.mem, w.disk, r).reply.Tokens? {
        RotateOk(v, r);
      }
    case Revoke(_, _) => RevokeOk(v, r);
  }

  lemma CodeNotGranted(w: World, c: Id)
    requires Inv(w) && c !in w.hist.issued
    ensures !IsGranted(w.hist, c)
  {
    forall i | 0 <= i < |w.hist.grants| ensures w.hist.grants[i].code != c {
      assert GrantOk(w.hist, w.hist.grants[i]);
    }
  }

  lemma ExchangeIsNew(w: World, r: Request)
    requires Inv(w) && r.Exchange? && Drawn(r) !! w.hist.issued
    ensures NewGrant(World(w.mem, w.disk, Begun(w.hist, w.mem, r)), r)
  {
    forall t | t in w.mem.live ensures w.mem.live[t].family != r.newFamily {
      assert TokenOk(t, AsDisk(w.mem).live[t], w.hist);
    }
  }

  /** Files that satisfy the promises of a reply also satisfy the history without them. */
  lemma DropPromises(d: Disk, h: History, r: Request, o: Outcome)
    requires DiskOk(d, Answered(Granted(h, r, o), r, o))
    ensures DiskOk(d, Granted(h, r, o)) && DiskOk(d, h)
  {
    var h2, h1 := Answered(Granted(h, r, o), r, o), Granted(h, r, o);
    forall t | t in d.live && t !in d.legacy ensures TokenOk(t, d.live[t], h1) && TokenOk(t, d.live[t], h) {
      assert TokenOk(t, d.live[t], h2);
    }
    forall c | c in d.codes ensures CodeOk(c, d.codes[c], h1) && CodeOk(c, d.codes[c], h) {
      assert CodeOk(c, d.codes[c], h2);
      GrantsGrow(h, r, o, c);
    }
  }

  lemma GrantsGrow(h: History, r: Request, o: Outcome, c: Id)
    ensures IsGranted(h, c) ==> IsGranted(Granted(h, r, o), c)
  {
    if IsGranted(h, c) {
      var i :| 0 <= i < |h.grants| && h.grants[i].code == c;
      assert Granted(h, r, o).grants[i].code == c;
    }
  }

  lemma WrittenDisk(w: World, r: Request, k: nat)
    requires HandlerOk(w, r) && 0 < k <= |Handle(w.mem, w.disk, r).writes|
    ensures var o := Handle(w.mem, w.disk, r);
            DiskOk(o.writes[k - 1], Answered(Granted(w.hist, r, o), r, o)) && HistoryOk(Granted(w.hist, r, o))
  {
  }

  lemma WriteOk(w: World, r: Request, k: nat)
    requires Inv(w) && Drawn(r) !! w.hist.issued && 0 < k <= |Handle(w.mem, w.disk, r).writes|
    ensures var o, h := Handle(w.mem, w.disk, r), Begun(w.hist, w.mem, r);
            Loadable(o.writes[k - 1], h) && Loadable(o.writes[k - 1], Granted(h, r, o))
  {
    var o, h := Handle(w.mem, w.disk, r), Begun(w.hist, w.mem, r);
    BegunOk(w, r);
    CallOk(w, r);
    WrittenDisk(World(w.mem, w.disk, h), r, k);
    DropPromises(o.writes[k - 1], h, r, o);
  }

  /** What a reload needs of the files and the history. */
  ghost predicate Loadable(d: Disk, h: History) {
    HistoryOk(h) && DiskOk(d, h)
  }

  lemma CrashDiskOk(w: World, r: Request, k: nat)
    requires Inv(w) && Drawn(r) !! w.hist.issued && k <= |Handle(w.mem, w.disk, r).writes|
    ensures Loadable(DiskAfter(w.disk, Handle(w.mem, w.disk, r), k), CutHistory(w, r, k))
  {
    if k > 0 {
      WriteOk(w, r, k);
      WrittenLoadable(w, r, k);
    } else {
      BegunOk(w, r);
      NothingGranted(Begun(w.hist, w.mem, r), r, w.mem, w.disk);
    }
  }

  /** A handler that wrote nothing granted nothing. */
  lemma NothingGranted(h: History, r: Request, m: Memory, d: Disk)
    ensures |Handle(m, d, r).writes| == 0 ==> Granted(h, r, Handle(m, d, r)) == h
  {
  }

  lemma WrittenLoadable(w: World, r: Request, k: nat)
    requires 0 < k <= |Handle(w.mem, w.disk, r).writes|
    requires var o, h := Handle(w.mem, w.disk, r), Begun(w.hist, w.mem, r);
             Loadable(o.writes[k - 1], h) && Loadable(o.writes[k - 1], Granted(h, r, o))
    ensures Loadable(DiskAfter(w.disk, Handle(w.mem, w.disk, r), k), CutHistory(w, r, k))
  {
  }

  lemma CrashOk(w: World, r: Request, k: nat, l: Reload)
    requires Inv(w) && Enabled(w, Crash(r, k, l))
    ensures Inv(Step(w, Crash(r, k, l)))
  {
    CrashDiskOk(w, r, k);
    CrashIsReload(w, r, k, l);
    ReloadedOk(DiskAfter(w.disk, Handle(w.mem, w.disk, r), k), CutHistory(w, r, k), l);
  }

  /** A crash is a reload of the files and the history of the cut request. */
  lemma CrashIsReload(w: World, r: Request, k: nat, l: Reload)
    requires Enabled(w, Crash(r, k, l))
    ensures k <= |Handle(w.mem, w.disk, r).writes| && Drawn(r) !! w.hist.issued
    ensures var d, h := DiskAfter(w.disk, Handle(w.mem, w.disk, r), k), CutHistory(w, r, k);
            h.issued == w.hist.issued + Drawn(r) && ValidReload(d, h.issued, l)
            && Step(w, Crash(r, k, l)) == Reloaded(d, h, l)
  {
  }

  /** Every event keeps the invariant. */
  lemma StepOk(w: World, e: Event)
    requires Inv(w) && Enabled(w, e)
    ensures Inv(Step(w, e))
  {
    match e
    case Call(r) => CallOk(w, r);
    case Crash(r, k, l) => CrashOk(w, r, k, l);
    case Restart(l) => ReloadedOk(w.disk, w.hist, l);
  }

  lemma {:induction false} RunOk(w: World, es: seq<Event>)
    requires Inv(w) && CanRun(w, es)
    ensures Inv(Run(w, es))
    decreases |es|
  {
    if |es| > 0 {
      StepOk(w, es[0]);
      RunOk(Step(w, es[0]), es[1..]);
    }
  }

  /** The record of h is kept in h': nothing answered, granted or owned is forgotten or changed. */
  ghost predicate Extends(h': History, h: History) {
    && h.issued <= h'.issued && h.rotated <= h'.rotated && h.dead <= h'.dead && h.grants <= h'.grants
    && (forall f :: f in h.owners ==> f in h'.owners && h'.owners[f] == h.owners[f])
    && (forall c :: c in h.codes ==> c in h'.codes && h'.codes[c] == h.codes[c])
  }

  lemma ExtendsTransitive(a: History, b: History, c: History)
    requires Extends(b, a) && Extends(c, b)
    ensures Extends(c, a)
  {
  }

  lemma BegunExtends(w: World, r: Request)
    requires HistoryOk(w.hist) && Drawn(r) !! w.hist.issued
    ensures var o, h := Handle(w.mem, w.disk, r), Begun(w.hist, w.mem, r);
            Extends(h, w.hist) && Extends(Granted(h, r, o), w.hist) && Extends(Answered(Granted(h, r, o), r, o), w.hist)
  {
  }

  lemma ReloadExtends(d: Disk, h: History, l: Reload)
    requires HistoryOk(h) && DiskOk(d, h) && ValidReload(d, h.issued, l)
    ensures Extends(Reloaded(d, h, l).hist, h)
  {
    ReloadHistory(d, h, l);
  }

  lemma StepExtends(w: World, e: Event)
    requires Inv(w) && Enabled(w, e)
    ensures Extends(Step(w, e).hist, w.hist)
  {
    match e
    case Call(r) => BegunExtends(w, r);
    case Crash(r, k, l) => CrashExtends(w, r, k, l);
    case Restart(l) => ReloadExtends(w.disk, w.hist, l);
  }

  lemma CrashExtends(w: World, r: Request, k: nat, l: Reload)
    requires Inv(w) && Enabled(w, Crash(r, k, l))
    ensures Extends(Step(w, Crash(r, k, l)).hist, w.hist)
  {
    CrashIsReload(w, r, k, l);
    BegunExtends(w, r);
    CrashDiskOk(w, r, k);
    ReloadExtends(DiskAfter(w.disk, Handle(w.mem, w.disk, r), k), CutHistory(w, r, k), l);
    ExtendsTransitive(w.hist, CutHistory(w, r, k), Step(w, Crash(r, k, l)).hist);
  }

  lemma {:induction false} RunExtends(w: World, es: seq<Event>)
    requires Inv(w) && CanRun(w, es)
    ensures Extends(Run(w, es).hist, w.hist)
    decreases |es|
  {
    if |es| > 0 {
      StepOk(w, es[0]);
      StepExtends(w, es[0]);
      RunExtends(Step(w, es[0]), es[1..]);
      ExtendsTransitive(w.hist, Step(w, es[0]).hist, Run(w, es).hist);
    }
  }

  // ----- the promises -----

  /** A first boot from files that hold at most refresh tokens of the older format. */
  ghost predicate Initial(w: World, l: Reload) {
    exists d: Disk ::
      && d.codes == map[] && d.retired == map[] && d.legacy == d.live.Keys
      && ValidReload(d, d.live.Keys, l) && w == Reloaded(d, History(d.live.Keys, map[], {}, {}, map[], []), l)
  }

  lemma InitialOk(w: World, l: Reload)
    requires Initial(w, l)
    ensures Inv(w)
  {
    var d: Disk :| d.codes == map[] && d.retired == map[] && d.legacy == d.live.Keys
                   && ValidReload(d, d.live.Keys, l)
                   && w == Reloaded(d, History(d.live.Keys, map[], {}, {}, map[], []), l);
    ReloadedOk(d, History(d.live.Keys, map[], {}, {}, map[], []), l);
  }

  /** What holds in every reachable state: no token is both live and retired; a family has at
      most one live token, of its one owner; no rotated token and no token of a dead family is
      live, in memory or on disk; and every grant is of a different code, to its owner. */
  ghost predicate Safe(w: World) {
    && (forall t :: t in w.mem.live ==> t !in w.mem.retired && t !in w.hist.rotated && t !in w.disk.retired)
    && (forall t, u :: t in w.mem.live && u in w.mem.live && t != u ==> w.mem.live[t].family != w.mem.live[u].family)
    && (forall t :: t in w.mem.live ==>
          var e := w.mem.live[t];
          e.family in w.hist.owners && w.hist.owners[e.family] == OwnerOf(e) && e.family !in w.hist.dead)
    && w.disk.live.Keys == w.mem.live.Keys
    && (forall i, j :: 0 <= i < j < |w.hist.grants| ==> w.hist.grants[i].code != w.hist.grants[j].code)
    && (forall i :: 0 <= i < |w.hist.grants| ==> GrantOk(w.hist, w.hist.grants[i]))
    && (forall i :: 0 <= i < |w.hist.grants| ==> w.hist.grants[i].code !in w.mem.codes + w.disk.codes)
  }

  lemma InvIsSafe(w: World)
    requires Inv(w)
    ensures Safe(w)
  {
    forall t | t in w.mem.live
      ensures w.mem.live[t].family in w.hist.owners && w.hist.owners[w.mem.live[t].family] == OwnerOf(w.mem.live[t])
      ensures w.mem.live[t].family !in w.hist.dead
    {
      assert TokenOk(t, AsDisk(w.mem).live[t], w.hist);
    }
    forall i | 0 <= i < |w.hist.grants| ensures w.hist.grants[i].code !in w.mem.codes + w.disk.codes {
      GrantedIsGone(w.disk, w.hist, i);
      GrantedIsGone(AsDisk(w.mem), w.hist, i);
    }
  }

  lemma GrantedIsGone(d: Disk, h: History, i: nat)
    requires DiskOk(d, h) && i < |h.grants|
    ensures h.grants[i].code !in d.codes
  {
    var c := h.grants[i].code;
    assert IsGranted(h, c);
    assert c in d.codes ==> CodeOk(c, d.codes[c], h);
  }

  /** Every run of calls, crashes and restarts from a first boot is safe at every point, and
      nothing answered at a point is undone at a later one. */
  lemma EveryRunSafe(w: World, l: Reload, es: seq<Event>, n: nat)
    requires Initial(w, l) && CanRun(w, es) && n <= |es|
    ensures CanRun(w, es[..n]) && Safe(Run(w, es[..n])) && Safe(Run(w, es))
    ensures Extends(Run(w, es).hist, Run(w, es[..n]).hist)
  {
    InitialOk(w, l);
    RunSplit(w, es, n);
    RunOk(w, es[..n]);
    RunOk(w, es);
    InvIsSafe(Run(w, es[..n]));
    InvIsSafe(Run(w, es));
    RunExtends(Run(w, es[..n]), es[n..]);
  }

  lemma {:induction false} RunSplit(w: World, es: seq<Event>, n: nat)
    requires CanRun(w, es) && n <= |es|
    ensures CanRun(w, es[..n]) && CanRun(Run(w, es[..n]), es[n..]) && Run(Run(w, es[..n]), es[n..]) == Run(w, es)
    decreases n
  {
    if n == 0 {
      assert es[..0] == [] && es[0..] == es;
    } else {
      RunSplit(Step(w, es[0]), es[1..], n - 1);
      assert es[..n][0] == es[0] && es[..n][1..] == es[1..][..n - 1] && es[1..][n - 1..] == es[n..];
    }
  }

  /** A token whose rotation was answered is never live again; a family whose reuse was
      answered never has a live token again. */
  lemma AnsweredForGood(w: World, l: Reload, es: seq<Event>, n: nat, t: Id, f: Id)
    requires Initial(w, l) && CanRun(w, es) && n <= |es| && CanRun(w, es[..n])
    ensures t in Run(w, es[..n]).hist.rotated ==> t !in Run(w, es).mem.live && t !in Run(w, es).disk.live
    ensures f in Run(w, es[..n]).hist.dead ==>
              forall u :: u in Run(w, es).mem.live ==> Run(w, es).mem.live[u].family != f
  {
    EveryRunSafe(w, l, es, n);
  }

  /** A code leads to at most one family in the whole run, and that family belongs for good to
      the address, client and scope the code was issued with. */
  lemma OneFamilyPerCode(w: World, l: Reload, es: seq<Event>, i: nat, j: nat)
    requires Initial(w, l) && CanRun(w, es)
    requires i < |Run(w, es).hist.grants| && j < |Run(w, es).hist.grants|
    requires Run(w, es).hist.grants[i].code == Run(w, es).hist.grants[j].code
    ensures i == j && GrantOk(Run(w, es).hist, Run(w, es).hist.grants[i])
  {
    EveryRunSafe(w, l, es, 0);
  }

  // ----- reuse detection -----

  /** The retirement r of token t is in memory and on disk. */
  ghost predicate Remembered(w: World, t: Id, r: Retired) {
    t in w.mem.retired && w.mem.retired[t] == r && t in w.disk.retired && w.disk.retired[t] == r
  }

  /** Token t is neither live nor retired in memory; the files hold at most its retirement r. */
  ghost predicate Forgotten(w: World, t: Id, r: Retired) {
    && t in w.hist.issued && t !in w.mem.live && t !in w.disk.live && t !in w.mem.retired
    && (t in w.disk.retired ==> w.disk.retired[t] == r)
  }

  predicate IsReload(e: Event) {
    e.Crash? || e.Restart?
  }

  function ReloadOf(e: Event): Reload
    requires IsReload(e)
  {
    if e.Crash? then e.reload else e.again
  }

  /** The retirement r is younger than the refresh lifetime when l reloads the files. */
  predicate Within(r: Retired, l: Reload) {
    r.at > l.now - l.refreshTtl
  }

  /** A restart within the refresh lifetime of a retirement keeps it. */
  predicate KeepsRetirement(e: Event, r: Retired) {
    IsReload(e) ==> Within(r, ReloadOf(e))
  }

  /** Every write leaves the files of each kind as they were or as the handler leaves the maps. */
  lemma WritesAre(m: Memory, d: Disk, q: Request)
    ensures var o := Handle(m, d, q);
            forall i :: 0 <= i < |o.writes| ==>
              && (o.writes[i].live == d.live || o.writes[i].live == o.mem.live)
              && (o.writes[i].retired == d.retired || o.writes[i].retired == o.mem.retired)
  {
  }

  /** A token that is not live keeps its retirement, or its absence. */
  lemma RetirementKept(m: Memory, d: Disk, q: Request, t: Id)
    requires t !in m.live
    ensures var m' := Handle(m, d, q).mem;
            (t in m'.retired <==> t in m.retired) && (t in m.retired ==> m'.retired[t] == m.retired[t])
  {
  }

  /** A token that is not live stays so, unless it is drawn anew. */
  lemma NotRevived(m: Memory, d: Disk, q: Request, t: Id)
    requires t !in m.live && t !in Drawn(q)
    ensures t !in Handle(m, d, q).mem.live
  {
  }

  /** No handler touches a retirement: only live tokens are retired. */
  lemma HandlerRemembers(w: World, q: Request, t: Id, r: Retired)
    requires Inv(w) && Remembered(w, t, r)
    ensures var o := Handle(w.mem, w.disk, q);
            && t in o.mem.retired && o.mem.retired[t] == r
            && forall i :: 0 <= i < |o.writes| ==> t in o.writes[i].retired && o.writes[i].retired[t] == r
  {
    assert t !in w.mem.live;
    RetirementKept(w.mem, w.disk, q, t);
    WritesAre(w.mem, w.disk, q);
  }

  lemma StepRemembers(w: World, e: Event, t: Id, r: Retired)
    requires Inv(w) && Enabled(w, e) && Remembered(w, t, r) && KeepsRetirement(e, r)
    ensures Remembered(Step(w, e), t, r)
  {
    match e
    case Call(q) => HandlerRemembers(w, q, t, r);
    case Crash(q, _, _) => HandlerRemembers(w, q, t, r);
    case Restart(_) =>
  }

  /** Nor does any handler revive a token that is gone: new tokens have new identifiers. */
  lemma HandlerForgets(w: World, q: Request, t: Id, r: Retired)
    requires Forgotten(w, t, r) && Drawn(q) !! w.hist.issued
    ensures var o := Handle(w.mem, w.disk, q);
            && t !in o.mem.live && t !in o.mem.retired
            && forall i :: 0 <= i < |o.writes| ==>
                 t !in o.writes[i].live && (t in o.writes[i].retired ==> o.writes[i].retired[t] == r)
  {
    RetirementKept(w.mem, w.disk, q, t);
    NotRevived(w.mem, w.disk, q, t);
    WritesAre(w.mem, w.disk, q);
  }

  /** A reload outside the lifetime drops the retirement from memory. */
  lemma ReloadForgets(d: Disk, h: History, l: Reload, t: Id, r: Retired)
    requires ValidReload(d, h.issued, l) && t in h.issued && t !in d.live
    requires !Within(r, l) && (t in d.retired ==> d.retired[t] == r)
    ensures Forgotten(Reloaded(d, h, l), t, r)
  {
  }

  lemma StepForgets(w: World, e: Event, t: Id, r: Retired)
    requires Enabled(w, e) && Forgotten(w, t, r) && (IsReload(e) ==> !KeepsRetirement(e, r))
    ensures Forgotten(Step(w, e), t, r)
  {
    match e
    case Call(q) => HandlerForgets(w, q, t, r);
    case Crash(q, k, l) =>
      CrashIsReload(w, q, k, l);
      HandlerForgets(w, q, t, r);
      ReloadForgets(DiskAfter(w.disk, Handle(w.mem, w.disk, q), k), CutHistory(w, q, k), l, t, r);
    case Restart(l) => ReloadForgets(w.disk, w.hist, l, t, r);
  }

  /** The first reload outside the lifetime turns a remembered token into a forgotten one. */
  lemma StepLoses(w: World, e: Event, t: Id, r: Retired)
    requires Inv(w) && Enabled(w, e) && Remembered(w, t, r) && !KeepsRetirement(e, r)
    ensures Forgotten(Step(w, e), t, r)
  {
    assert t in w.hist.issued && t !in w.mem.live && t !in w.disk.live;
    match e
    case Crash(q, k, l) =>
      CrashIsReload(w, q, k, l);
      HandlerRemembers(w, q, t, r);
      StaysGone(w, q, t);
      ReloadForgets(DiskAfter(w.disk, Handle(w.mem, w.disk, q), k), CutHistory(w, q, k), l, t, r);
    case Restart(l) => ReloadForgets(w.disk, w.hist, l, t, r);
  }

  lemma StaysGone(w: World, q: Request, t: Id)
    requires Inv(w) && Drawn(q) !! w.hist.issued && t in w.hist.issued && t !in w.mem.live
    ensures forall i :: 0 <= i < |Handle(w.mem, w.disk, q).writes| ==> t !in Handle(w.mem, w.disk, q).writes[i].live
  {
    NotRevived(w.mem, w.disk, q, t);
    WritesAre(w.mem, w.disk, q);
    assert t !in w.disk.live;
  }

  lemma {:induction false} RunRemembers(w: World, es: seq<Event>, t: Id, r: Retired)
    requires Inv(w) && CanRun(w, es) && Remembered(w, t, r)
    requires forall i :: 0 <= i < |es| ==> KeepsRetirement(es[i], r)
    ensures Remembered(Run(w, es), t, r)
    decreases |es|
  {
    if |es| > 0 {
      StepOk(w, es[0]);
      StepRemembers(w, es[0], t, r);
      RunRemembers(Step(w, es[0]), es[1..], t, r);
    }
  }

  lemma {:induction false} RunForgets(w: World, es: seq<Event>, t: Id, r: Retired)
    requires CanRun(w, es) && Forgotten(w, t, r)
    requires forall i :: 0 <= i < |es| && IsReload(es[i]) ==> !KeepsRetirement(es[i], r)
    ensures Forgotten(Run(w, es), t, r)
    decreases |es|
  {
    if |es| > 0 {
      StepForgets(w, es[0], t, r);
      RunForgets(Step(w, es[0]), es[1..], t, r);
    }
  }

  /** The clock of the reloads does not go back, and the refresh lifetime is one. */
  predicate OneClock(es: seq<Event>, ttl: int) {
    && (forall i :: 0 <= i < |es| && IsReload(es[i]) ==> ReloadOf(es[i]).refreshTtl == ttl)
    && (forall i, j :: 0 <= i < j < |es| && IsReload(es[i]) && IsReload(es[j]) ==>
                         ReloadOf(es[i]).now <= ReloadOf(es[j]).now)
  }

  predicate AllWithin(es: seq<Event>, r: Retired) {
    forall i :: 0 <= i < |es| ==> KeepsRetirement(es[i], r)
  }

  /** Once a reload falls outside the lifetime, so does every later one. */
  lemma ClockTail(es: seq<Event>, r: Retired, ttl: int)
    requires |es| > 0 && OneClock(es, ttl)
    ensures OneClock(es[1..], ttl) && (AllWithin(es, r) <==> KeepsRetirement(es[0], r) && AllWithin(es[1..], r))
    ensures !KeepsRetirement(es[0], r) ==>
              forall i :: 0 <= i < |es| - 1 && IsReload(es[1..][i]) ==> !KeepsRetirement(es[1..][i], r)
  {
    assert es == [es[0]] + es[1..];
    assert forall i :: 0 < i < |es| ==> es[i] == es[1..][i - 1];
  }

  /** Over every run a remembered retirement ends up remembered or forgotten, according to
      whether every reload of the run fell within the lifetime. */
  lemma {:induction false} RememberedOrForgotten(w: World, es: seq<Event>, t: Id, r: Retired, ttl: int)
    requires Inv(w) && CanRun(w, es) && Remembered(w, t, r) && OneClock(es, ttl)
    ensures AllWithin(es, r) ==> Remembered(Run(w, es), t, r)
    ensures !AllWithin(es, r) ==> Forgotten(Run(w, es), t, r)
    decreases |es|
  {
    if |es| > 0 {
      var e, rest := es[0], es[1..];
      ClockTail(es, r, ttl);
      StepOk(w, e);
      if KeepsRetirement(e, r) {
        StepRemembers(w, e, t, r);
        RememberedOrForgotten(Step(w, e), rest, t, r, ttl);
      } else {
        StepLoses(w, e, t, r);
        RunForgets(Step(w, e), rest, t, r);
      }
    }
  }

  /** A refresh that rotates: the token is live, not retired, and presented by its client. */
  predicate Rotates(m: Memory, q: Request) {
    && q.Refresh? && q.token !in m.retired && q.token in m.live
    && m.live[q.token].client == q.refreshClient
  }

  lemma RotatesIff(m: Memory, d: Disk, q: Request)
    requires q.Refresh?
    ensures Handle(m, d, q).reply.Tokens? <==> Rotates(m, q)
    ensures Rotates(m, q) ==> Handle(m, d, q).reply == Tokens(q.next, m.live[q.token].scope)
  {
  }

  /** How a refresh is answered, by where the token is. */
  lemma RefreshAnswer(m: Memory, d: Disk, client: string, t: Id, now: int, next: Id)
    ensures var o := Handle(m, d, Refresh(client, t, now, next));
            && (o.reply.ReuseDetected? <==> t in m.retired)
            && (t in m.retired ==> o.reply.family == m.retired[t].family)
            && (t !in m.retired && t !in m.live ==> o == Outcome(m, [], InvalidGrant))
  {
  }

  /** What presenting the token gets, in each of the two cases. */
  lemma ReplayAnswer(w: World, t: Id, r: Retired, client: string, now: int, next: Id)
    ensures var o := Handle(w.mem, w.disk, Refresh(client, t, now, next));
            && (Remembered(w, t, r) ==>
                  o.reply == ReuseDetected(r.family)
                  && forall u :: u in o.mem.live ==> o.mem.live[u].family != r.family)
            && (Forgotten(w, t, r) ==> o == Outcome(w.mem, [], InvalidGrant))
  {
  }

  /** After an answered rotation, at the end of every run, replaying the old token is answered
      as reuse, and its family left without live tokens, exactly if every reload of the run fell
      within the refresh lifetime of the rotation; otherwise the replay is refused and changes
      nothing. */
  lemma ReplayDetectedIff(w: World, q: Request, es: seq<Event>, ttl: int, client: string, now: int, next: Id)
    requires Inv(w) && Enabled(w, Call(q)) && Rotates(w.mem, q)
    requires CanRun(Step(w, Call(q)), es) && OneClock(es, ttl)
    ensures var v, r := Run(Step(w, Call(q)), es), Retired(w.mem.live[q.token].family, q.at);
            var o := Handle(v.mem, v.disk, Refresh(client, q.token, now, next));
            && (o.reply.ReuseDetected? <==> AllWithin(es, r))
            && (o.reply.ReuseDetected? ==>
                  o.reply.family == r.family && forall u :: u in o.mem.live ==> o.mem.live[u].family != r.family)
            && (!o.reply.ReuseDetected? ==> o == Outcome(v.mem, [], InvalidGrant))
  {
    var v, r := Run(Step(w, Call(q)), es), Retired(w.mem.live[q.token].family, q.at);
    StepOk(w, Call(q));
    assert Remembered(Step(w, Call(q)), q.token, r);
    RememberedOrForgotten(Step(w, Call(q)), es, q.token, r, ttl);
    ReplayAnswer(v, q.token, r, client, now, next);
  }

  lemma RotationWritesTwice(m: Memory, d: Disk, q: Request)
    requires Rotates(m, q)
    ensures |Handle(m, d, q).writes| == 2
  {
  }

  /** The files after the first k writes of a rotation. */
  lemma CutFiles(w: World, q: Request, k: nat)
    requires Inv(w) && Drawn(q) !! w.hist.issued && Rotates(w.mem, q) && k <= 2
    ensures |Handle(w.mem, w.disk, q).writes| == 2
    ensures var d, e := DiskAfter(w.disk, Handle(w.mem, w.disk, q), k), w.mem.live[q.token];
            && (q.token in d.live <==> k == 0) && (q.token in d.retired <==> k == 2)
            && (k == 2 ==> d.retired[q.token] == Retired(e.family, q.at))
            && (k > 0 ==> d.legacy == {} && q.next in d.live && d.live[q.next] == e)
  {
    LiveFacts(w, q.token);
    FilesAfter(w.mem, w.disk, q, k);
  }

  lemma LiveFacts(w: World, t: Id)
    requires Inv(w) && t in w.mem.live
    ensures t in w.disk.live && t !in w.disk.retired && t in w.hist.issued
  {
  }

  lemma FilesAfter(m: Memory, d0: Disk, q: Request, k: nat)
    requires Rotates(m, q) && q.next != q.token && q.token in d0.live && q.token !in d0.retired && k <= 2
    ensures |Handle(m, d0, q).writes| == 2
    ensures var d, e := DiskAfter(d0, Handle(m, d0, q), k), m.live[q.token];
            && (q.token in d.live <==> k == 0) && (q.token in d.retired <==> k == 2)
            && (k == 2 ==> d.retired[q.token] == Retired(e.family, q.at))
            && (k > 0 ==> d.legacy == {} && q.next in d.live && d.live[q.next] == e)
  {
    RotatedFiles(m, d0, q);
  }

  lemma RotatedFiles(m: Memory, d: Disk, q: Request)
    requires Rotates(m, q) && q.next != q.token
    ensures var o, e := Handle(m, d, q), m.live[q.token];
            && |o.writes| == 2 && o.writes[0].live == o.writes[1].live == o.mem.live && o.writes[0].retired == d.retired
            && o.writes[0].legacy == o.writes[1].legacy == {}
            && q.token !in o.mem.live && q.next in o.mem.live && o.mem.live[q.next] == e
            && q.token in o.writes[1].retired && o.writes[1].retired[q.token] == Retired(e.family, q.at)
  {
  }

  lemma LoadKeeps(d: Disk, l: Reload, t: Id, r: Retired)
    requires d.legacy <= l.drawn.Keys
    ensures var m := Load(d, l.now, l.refreshTtl, l.drawn);
            && (t in m.live <==> t in d.live) && (t in d.live && t !in d.legacy ==> m.live[t] == d.live[t])
            && (t in m.retired ==> t in d.retired && m.retired[t] == d.retired[t])
            && (t in d.retired && d.retired[t] == r ==> (t in m.retired <==> Within(r, l)))
  {
  }

  /** A rotation cut off after k of its writes: replaying the old token after the reload is
      answered as reuse exactly if both files were written and the reload falls within the
      lifetime. With one write the old token is gone and its successor live, so the replay is
      refused without revoking the family; with none the old token is still live. */
  lemma CutRotationDetectedIff(w: World, q: Request, k: nat, l: Reload, client: string, now: int, next: Id)
    requires Inv(w) && Enabled(w, Crash(q, k, l)) && Rotates(w.mem, q)
    ensures var w', r := Step(w, Crash(q, k, l)), Retired(w.mem.live[q.token].family, q.at);
            var o := Handle(w'.mem, w'.disk, Refresh(client, q.token, now, next));
            && (o.reply.ReuseDetected? <==> k == 2 && Within(r, l))
            && (o.reply.ReuseDetected? ==> o.reply.family == r.family)
            && (k == 0 <==> q.token in w'.mem.live)
            && (k > 0 ==> q.next in w'.mem.live && w'.mem.live[q.next] == w.mem.live[q.token])
            && (k > 0 && !o.reply.ReuseDetected? ==> o == Outcome(w'.mem, [], InvalidGrant))
  {
    var d, r := DiskAfter(w.disk, Handle(w.mem, w.disk, q), k), Retired(w.mem.live[q.token].family, q.at);
    CrashIsReload(w, q, k, l);
    RotationWritesTwice(w.mem, w.disk, q);
    CutFiles(w, q, k);
    LoadKeeps(d, l, q.token, r);
    if k > 0 { LoadKeeps(d, l, q.next, r); }
    RefreshAnswer(Step(w, Crash(q, k, l)).mem, d, client, q.token, now, next);
  }

  // ----- replays that are not detected -----

  const OLD: Disk := Disk(map[], map[0 := Entry("a", "c", [], 0)], map[], {0})
  const BOOT: Reload := Reload(0, 0, map[0 := 1])

  /** A first boot from files with one refresh token of the older format, which gets family 1. */
  ghost function Booted(): World {
    Reloaded(OLD, History({0}, map[], {}, {}, map[], []), BOOT)
  }

  lemma BootedIsInitial()
    ensures Initial(Booted(), BOOT)
    ensures Booted().mem == Memory(map[], map[0 := Entry("a", "c", [], 1)], map[])
    ensures Booted().disk == OLD && Booted().hist.issued == {0, 1} && Booted().hist.rotated == {}
  {
    BootMemory();
    BootHistory();
    BootFiles();
  }

  lemma BootFiles()
    ensures ValidReload(OLD, OLD.live.Keys, BOOT) && OLD.live.Keys == {0}
    ensures Initial(Reloaded(OLD, History(OLD.live.Keys, map[], {}, {}, map[], []), BOOT), BOOT)
  {
    assert OLD.live.Keys == {0};
  }

  lemma BootMemory()
    ensures Load(OLD, BOOT.now, BOOT.refreshTtl, BOOT.drawn) == Memory(map[], map[0 := Entry("a", "c", [], 1)], map[])
  {
    var m := Load(OLD, BOOT.now, BOOT.refreshTtl, BOOT.drawn);
    assert m.live == map[0 := Entry("a", "c", [], 1)] && m.codes == map[] && m.retired == map[];
  }

  lemma BootHistory()
    ensures (set t | t in OLD.legacy :: BOOT.drawn[t]) == {1}
  {
    var families := set t | t in OLD.legacy :: BOOT.drawn[t];
    assert BOOT.drawn[0] in families;
  }

  /** The rotation of token 0 into token 2 at a given time. */
  function Rotation(at: int): Request {
    Refresh("c", 0, at, 2)
  }

  lemma RotationFromBoot(at: int)
    ensures Enabled(Booted(), Call(Rotation(at))) && Rotates(Booted().mem, Rotation(at))
    ensures var w := Step(Booted(), Call(Rotation(at)));
            && w.mem.live == map[2 := Entry("a", "c", [], 1)] && 0 in w.hist.rotated && w.disk.legacy == {}
            && w.disk.live == w.mem.live && w.disk.retired == map[0 := Retired(1, at)]
  {
    BootedIsInitial();
    RotationOfOne(OLD, at);
    RotationStep(Booted(), at);
  }

  lemma RotationStep(w: World, at: int)
    requires w.disk == OLD && w.mem == Memory(map[], map[0 := Entry("a", "c", [], 1)], map[]) && 2 !in w.hist.issued
    ensures Enabled(w, Call(Rotation(at)))
    ensures var v, o := Step(w, Call(Rotation(at))), Handle(w.mem, w.disk, Rotation(at));
            && v.mem == o.mem && (|o.writes| == 2 ==> v.disk == o.writes[1])
            && (o.reply.Tokens? ==> 0 in v.hist.rotated)
  {
  }

  lemma RotationOfOne(d: Disk, at: int)
    ensures var o := Handle(Memory(map[], map[0 := Entry("a", "c", [], 1)], map[]), d, Rotation(at));
            && o.mem == Memory(map[], map[2 := Entry("a", "c", [], 1)], map[0 := Retired(1, at)])
            && o.writes == TokenWrites(d, o.mem) && o.reply == Tokens(2, [])
  {
    var o := Handle(Memory(map[], map[0 := Entry("a", "c", [], 1)], map[]), d, Rotation(at));
    assert o.mem.live == map[2 := Entry("a", "c", [], 1)];
    assert o.mem.retired == map[0 := Retired(1, at)];
  }

  /** A run from a first boot in which the reuse of an answered rotation is not detected: token 0
      is rotated, and a restart at the end of the refresh lifetime forgets it. Its successor is
      live, and replaying it is refused without revoking anything. */
  lemma LateReplayMissed(at: int, ttl: int, client: string, now: int, next: Id) returns (es: seq<Event>)
    ensures Initial(Booted(), BOOT) && CanRun(Booted(), es)
    ensures var w := Run(Booted(), es);
            && 0 in w.hist.rotated && 2 in w.mem.live
            && Handle(w.mem, w.disk, Refresh(client, 0, now, next)) == Outcome(w.mem, [], InvalidGrant)
  {
    BootedIsInitial();
    RotationFromBoot(at);
    var w := Step(Booted(), Call(Rotation(at)));
    var late := Restart(Reload(at + ttl, ttl, map[]));
    es := [Call(Rotation(at)), late];
    assert es[1..] == [late] && [late][1..] == [];
    assert Run(w, [late]) == Step(w, late);
    RefreshAnswer(Step(w, late).mem, Step(w, late).disk, client, 0, now, next);
  }

  /** The same for a rotation that a crash cuts off between its two writes, at any time. */
  lemma CutReplayMissed(at: int, now': int, ttl: int, client: string, now: int, next: Id) returns (es: seq<Event>)
    ensures Initial(Booted(), BOOT) && CanRun(Booted(), es)
    ensures var w := Run(Booted(), es);
            && 2 in w.mem.live
            && Handle(w.mem, w.disk, Refresh(client, 0, now, next)) == Outcome(w.mem, [], InvalidGrant)
  {
    var q, l := Rotation(at), Reload(now', ttl, map[]);
    BootedIsInitial();
    RotationFromBoot(at);
    InitialOk(Booted(), BOOT);
    CutEnabled(at, l);
    RunOne(Booted(), Crash(q, 1, l));
    CutRotationDetectedIff(Booted(), q, 1, l, client, now, next);
    es := [Crash(q, 1, l)];
  }

  lemma CutEnabled(at: int, l: Reload)
    requires l.drawn == map[]
    ensures Enabled(Booted(), Crash(Rotation(at), 1, l))
  {
    BootedIsInitial();
    RotationFromBoot(at);
    InitialOk(Booted(), BOOT);
    CutFiles(Booted(), Rotation(at), 1);
  }

  lemma RunOne(w: World, e: Event)
    requires Enabled(w, e)
    ensures CanRun(w, [e]) && Run(w, [e]) == Step(w, e)
  {
    assert [e][1..] == [];
  }
}
