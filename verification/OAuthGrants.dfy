/** Authorization codes and revoked tokens over every run of the OAuth provider: until when a
    code works, and what a revocation settles. */
module OAuthGrants {
  import opened Common
  import opened OAuthProvider
  import opened OAuthRuns

  // ----- codes -----

  /** The code is pending, in memory and on disk. */
  ghost predicate Held(w: World, c: Id, p: Pending) {
    c in w.mem.codes && w.mem.codes[c] == p && c in w.disk.codes && w.disk.codes[c] == p
  }

  /** The code was issued and is pending nowhere. */
  ghost predicate Burned(w: World, c: Id) {
    c in w.hist.issued && c !in w.mem.codes && c !in w.disk.codes
  }

  /** The code was issued and is not pending in memory; the files hold at most what it was. */
  ghost predicate Lapsed(w: World, c: Id, p: Pending) {
    c in w.hist.issued && c !in w.mem.codes && (c in w.disk.codes ==> w.disk.codes[c] == p)
  }

  /** An exchange of the code that got as far as its first write. */
  predicate Burns(e: Event, c: Id) {
    match e
    case Call(q) => q.Exchange? && q.code == c
    case Crash(q, k, _) => q.Exchange? && q.code == c && k > 0
    case Restart(_) => false
  }

  /** A restart before the expiry keeps the code. */
  predicate Spares(e: Event, p: Pending) {
    IsReload(e) ==> ReloadOf(e).now < p.exp
  }

  /** The clock of the reloads does not go back. */
  predicate ClockForward(es: seq<Event>) {
    forall i, j :: 0 <= i < j < |es| && IsReload(es[i]) && IsReload(es[j]) ==>
                     ReloadOf(es[i]).now <= ReloadOf(es[j]).now
  }

  predicate AllSpare(es: seq<Event>, c: Id, p: Pending) {
    forall i :: 0 <= i < |es| ==> !Burns(es[i], c) && Spares(es[i], p)
  }

  /** A handler that does not exchange the code leaves it pending. */
  lemma OthersKeepCode(m: Memory, d: Disk, q: Request, c: Id, p: Pending)
    requires c in m.codes && m.codes[c] == p && c in d.codes && d.codes[c] == p
    requires c !in Drawn(q) && !(q.Exchange? && q.code == c)
    ensures var o := Handle(m, d, q);
            && c in o.mem.codes && o.mem.codes[c] == p
            && forall i :: 0 <= i < |o.writes| ==> c in o.writes[i].codes && o.writes[i].codes[c] == p
  {
  }

  /** No handler brings a code back that is not drawn anew. */
  lemma CodeNotRevived(m: Memory, d: Disk, q: Request, c: Id)
    requires c !in m.codes && c !in Drawn(q)
    ensures var o := Handle(m, d, q);
            && c !in o.mem.codes
            && forall i :: 0 <= i < |o.writes| ==>
                 c in o.writes[i].codes ==> c in d.codes && o.writes[i].codes[c] == d.codes[c]
  {
  }

  lemma ReloadCode(d: Disk, h: History, l: Reload, c: Id)
    requires ValidReload(d, h.issued, l) && c in h.issued
    ensures var v := Reloaded(d, h, l);
            && v.disk == d && c in v.hist.issued && (c in v.mem.codes <==> c in d.codes && l.now < d.codes[c].exp)
            && (c in v.mem.codes ==> v.mem.codes[c] == d.codes[c])
  {
  }

  lemma StepHolds(w: World, e: Event, c: Id, p: Pending)
    requires Enabled(w, e) && Held(w, c, p) && c in w.hist.issued && !Burns(e, c) && Spares(e, p)
    ensures Held(Step(w, e), c, p) && c in Step(w, e).hist.issued
  {
    match e
    case Call(q) => OthersKeepCode(w.mem, w.disk, q, c, p);
    case Crash(q, k, l) =>
      CrashIsReload(w, q, k, l);
      if k > 0 { OthersKeepCode(w.mem, w.disk, q, c, p); }
      ReloadCode(DiskAfter(w.disk, Handle(w.mem, w.disk, q), k), CutHistory(w, q, k), l, c);
    case Restart(l) => ReloadCode(w.disk, w.hist, l, c);
  }

  lemma StepBurns(w: World, e: Event, c: Id, p: Pending)
    requires Enabled(w, e) && Held(w, c, p) && c in w.hist.issued && Burns(e, c)
    ensures Burned(Step(w, e), c)
  {
    match e
    case Call(q) => ExchangeIff(w.mem, w.disk, q.client, c, q.redirect, q.now, q.newToken, q.newFamily);
    case Crash(q, k, l) =>
      CrashIsReload(w, q, k, l);
      ExchangeIff(w.mem, w.disk, q.client, c, q.redirect, q.now, q.newToken, q.newFamily);
      ReloadCode(DiskAfter(w.disk, Handle(w.mem, w.disk, q), k), CutHistory(w, q, k), l, c);
  }

  lemma StepLapses(w: World, e: Event, c: Id, p: Pending)
    requires Enabled(w, e) && Held(w, c, p) && c in w.hist.issued && !Burns(e, c) && !Spares(e, p)
    ensures Lapsed(Step(w, e), c, p)
  {
    match e
    case Crash(q, k, l) =>
      CrashIsReload(w, q, k, l);
      if k > 0 { OthersKeepCode(w.mem, w.disk, q, c, p); }
      ReloadCode(DiskAfter(w.disk, Handle(w.mem, w.disk, q), k), CutHistory(w, q, k), l, c);
    case Restart(l) => ReloadCode(w.disk, w.hist, l, c);
  }

  lemma StepStaysBurned(w: World, e: Event, c: Id)
    requires Enabled(w, e) && Burned(w, c)
    ensures Burned(Step(w, e), c)
  {
    match e
    case Call(q) => CodeNotRevived(w.mem, w.disk, q, c);
    case Crash(q, k, l) =>
      CrashIsReload(w, q, k, l);
      CodeNotRevived(w.mem, w.disk, q, c);
      ReloadCode(DiskAfter(w.disk, Handle(w.mem, w.disk, q), k), CutHistory(w, q, k), l, c);
    case Restart(l) => ReloadCode(w.disk, w.hist, l, c);
  }

  lemma StepStaysLapsed(w: World, e: Event, c: Id, p: Pending)
    requires Enabled(w, e) && Lapsed(w, c, p) && (IsReload(e) ==> !Spares(e, p))
    ensures Lapsed(Step(w, e), c, p)
  {
    match e
    case Call(q) => CodeNotRevived(w.mem, w.disk, q, c);
    case Crash(q, k, l) =>
      CrashIsReload(w, q, k, l);
      CodeNotRevived(w.mem, w.disk, q, c);
      ReloadCode(DiskAfter(w.disk, Handle(w.mem, w.disk, q), k), CutHistory(w, q, k), l, c);
    case Restart(l) => ReloadCode(w.disk, w.hist, l, c);
  }

  lemma {:induction false} RunStaysBurned(w: World, es: seq<Event>, c: Id)
    requires CanRun(w, es) && Burned(w, c)
    ensures Burned(Run(w, es), c)
    decreases |es|
  {
    if |es| > 0 {
      StepStaysBurned(w, es[0], c);
      RunStaysBurned(Step(w, es[0]), es[1..], c);
    }
  }

  lemma {:induction false} RunStaysLapsed(w: World, es: seq<Event>, c: Id, p: Pending)
    requires CanRun(w, es) && Lapsed(w, c, p)
    requires forall i :: 0 <= i < |es| && IsReload(es[i]) ==> !Spares(es[i], p)
    ensures Lapsed(Run(w, es), c, p)
    decreases |es|
  {
    if |es| > 0 {
      StepStaysLapsed(w, es[0], c, p);
      RunStaysLapsed(Step(w, es[0]), es[1..], c, p);
    }
  }

  /** After the first late reload all reloads are late. */
  lemma ForwardTail(es: seq<Event>, c: Id, p: Pending)
    requires |es| > 0 && ClockForward(es)
    ensures ClockForward(es[1..])
    ensures AllSpare(es, c, p) <==> !Burns(es[0], c) && Spares(es[0], p) && AllSpare(es[1..], c, p)
    ensures !Spares(es[0], p) ==> forall i :: 0 <= i < |es| - 1 && IsReload(es[1..][i]) ==> !Spares(es[1..][i], p)
  {
    assert es == [es[0]] + es[1..];
    assert forall i :: 0 < i < |es| ==> es[i] == es[1..][i - 1];
  }

  /** At the end of every run a pending code is still pending, unless an exchange of it got to its
      first write or a reload came at or after its expiry; then it is not pending in memory. */
  lemma {:induction false} PendingIff(w: World, es: seq<Event>, c: Id, p: Pending)
    requires CanRun(w, es) && Held(w, c, p) && c in w.hist.issued && ClockForward(es)
    ensures AllSpare(es, c, p) ==> Held(Run(w, es), c, p)
    ensures !AllSpare(es, c, p) ==> c !in Run(w, es).mem.codes
    decreases |es|
  {
    if |es| > 0 {
      var e, rest := es[0], es[1..];
      ForwardTail(es, c, p);
      if Burns(e, c) {
        StepBurns(w, e, c, p);
        RunStaysBurned(Step(w, e), rest, c);
      } else if Spares(e, p) {
        StepHolds(w, e, c, p);
        PendingIff(Step(w, e), rest, c, p);
      } else {
        StepLapses(w, e, c, p);
        RunStaysLapsed(Step(w, e), rest, c, p);
      }
    }
  }

  /** After a code is issued, at the end of every run, exchanging it is answered with tokens
      exactly if no exchange of it got to its first write, every reload came before its expiry,
      it is not past its expiry, and it is presented by its client with its redirect or none.
      The token then belongs to the address, client and scope it was issued for. */
  lemma CodeWorksIff(w: World, c: Id, p: Pending, es: seq<Event>, client: string, redirect: Option<string>, now: int,
                     token: Id, family: Id)
    requires Enabled(w, Call(Issue(c, p))) && CanRun(Step(w, Call(Issue(c, p))), es) && ClockForward(es)
    ensures var u := Run(Step(w, Call(Issue(c, p))), es);
            var o := ExchangeCode(u.mem, u.disk, client, c, redirect, now, token, family);
            && (o.reply.Tokens? <==>
                  && AllSpare(es, c, p) && now <= p.exp && client == p.client
                  && (redirect.None? || redirect.value == p.redirect))
            && (o.reply.Tokens? ==>
                  && o.reply == Tokens(token, p.scope) && token in o.mem.live
                  && o.mem.live[token] == Entry(p.address, p.client, p.scope, family))
            && (!o.reply.Tokens? ==> o.reply == InvalidGrant && o.mem.live == u.mem.live)
  {
    var v := Step(w, Call(Issue(c, p)));
    PendingIff(v, es, c, p);
    var u := Run(v, es);
    ExchangeIff(u.mem, u.disk, client, c, redirect, now, token, family);
  }

  // ----- revoked tokens -----

  /** The token was issued and is live nowhere. */
  ghost predicate NotLive(w: World, t: Id) {
    t in w.hist.issued && t !in w.mem.live && t !in w.disk.live
  }

  lemma ReloadNotLive(d: Disk, h: History, l: Reload, t: Id)
    requires ValidReload(d, h.issued, l) && t in h.issued && t !in d.live
    ensures NotLive(Reloaded(d, h, l), t)
  {
  }

  lemma StepNotLive(w: World, e: Event, t: Id)
    requires Enabled(w, e) && NotLive(w, t)
    ensures NotLive(Step(w, e), t)
  {
    match e
    case Call(q) =>
      NotRevived(w.mem, w.disk, q, t);
      WritesAre(w.mem, w.disk, q);
    case Crash(q, k, l) =>
      CrashIsReload(w, q, k, l);
      NotRevived(w.mem, w.disk, q, t);
      WritesAre(w.mem, w.disk, q);
      ReloadNotLive(DiskAfter(w.disk, Handle(w.mem, w.disk, q), k), CutHistory(w, q, k), l, t);
    case Restart(l) => ReloadNotLive(w.disk, w.hist, l, t);
  }

  /** A token that is not live never becomes live again, in memory or on disk, in any run. */
  lemma {:induction false} NeverLiveAgain(w: World, es: seq<Event>, t: Id)
    requires CanRun(w, es) && NotLive(w, t)
    ensures NotLive(Run(w, es), t)
    decreases |es|
  {
    if |es| > 0 {
      StepNotLive(w, es[0], t);
      NeverLiveAgain(Step(w, es[0]), es[1..], t);
    }
  }

  /** A revoked token is never live again, and until a reload outside the refresh lifetime
      presenting it is answered as reuse; the other tokens are as before. */
  lemma RevokedForGood(w: World, t: Id, at: int, es: seq<Event>, ttl: int, client: string, now: int, next: Id)
    requires Inv(w) && t in w.mem.live && Enabled(w, Call(Revoke(t, at)))
    requires CanRun(Step(w, Call(Revoke(t, at))), es) && OneClock(es, ttl)
    ensures var v, r := Step(w, Call(Revoke(t, at))), Retired(w.mem.live[t].family, at);
            var u := Run(v, es);
            && v.mem.live == w.mem.live - {t} && NotLive(u, t)
            && (Handle(u.mem, u.disk, Refresh(client, t, now, next)).reply.ReuseDetected? <==> AllWithin(es, r))
  {
    var v, r := Step(w, Call(Revoke(t, at))), Retired(w.mem.live[t].family, at);
    RevokeRemembers(w, t, at);
    StepOk(w, Call(Revoke(t, at)));
    NeverLiveAgain(v, es, t);
    RememberedOrForgotten(v, es, t, r, ttl);
    RefreshAnswer(Run(v, es).mem, Run(v, es).disk, client, t, now, next);
  }

  lemma RevokeRemembers(w: World, t: Id, at: int)
    requires Inv(w) && t in w.mem.live && Enabled(w, Call(Revoke(t, at)))
    ensures var v := Step(w, Call(Revoke(t, at)));
            && v.mem.live == w.mem.live - {t} && NotLive(v, t)
            && Remembered(v, t, Retired(w.mem.live[t].family, at))
  {
    LiveFacts(w, t);
    RevokeOutcome(w.mem, w.disk, Revoke(t, at));
  }

  /** Revoking a token that is not live changes nothing. */
  lemma RevokingNothing(w: World, t: Id, at: int)
    requires Enabled(w, Call(Revoke(t, at))) && t !in w.mem.live
    ensures Step(w, Call(Revoke(t, at))) == w
  {
    assert w.hist.(issued := w.hist.issued + {}) == w.hist;
  }
}
