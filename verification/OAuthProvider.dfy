/** The authorization-code and refresh-token provider of src/gateway/oauth-provider.ts with its
    persisted store: handlers, crashes between writes, restarts, and what every run keeps. */
module OAuthProvider {
  import opened Common

  /** Codes, tokens and family identifiers; randomBytes never repeats one. */
  type Id = nat

  datatype Pending = Pending(address: string, client: string, redirect: string, scope: seq<string>, exp: int)
  datatype Entry = Entry(address: string, client: string, scope: seq<string>, family: Id)
  datatype Retired = Retired(family: Id, at: int)

  /** The maps of the running process. */
  datatype Memory = Memory(codes: map<Id, Pending>, live: map<Id, Entry>, retired: map<Id, Retired>)

  /** The files. A refresh token in legacy was written without a family identifier; the one in
      its entry is then meaningless. */
  datatype Disk = Disk(codes: map<Id, Pending>, live: map<Id, Entry>, retired: map<Id, Retired>, legacy: set<Id>)

  datatype Reply =
    | CodeIssued(code: Id)
    | Tokens(refresh: Id, scope: seq<string>)
    | ReuseDetected(family: Id)
    | InvalidGrant
    | Done

  /** What a handler that runs to its end leaves behind: the new maps, the files after each
      write in order, and the reply. */
  datatype Outcome = Outcome(mem: Memory, writes: seq<Disk>, reply: Reply)

  // ----- persistence -----

  function WithCodes(d: Disk, m: Memory): Disk {
    d.(codes := m.codes)
  }

  function WithLive(d: Disk, m: Memory): Disk {
    d.(live := m.live, legacy := {})
  }

  function WithRetired(d: Disk, m: Memory): Disk {
    d.(retired := m.retired)
  }

  /** The token maps are always written live tokens first, then retired ones. */
  function TokenWrites(d: Disk, m: Memory): seq<Disk> {
    [WithLive(d, m), WithRetired(WithLive(d, m), m)]
  }

  /** loadAll: expired codes and old retirements are dropped, legacy tokens get new families. */
  function Load(d: Disk, now: int, refreshTtl: int, drawn: map<Id, Id>): Memory
    requires d.legacy <= drawn.Keys
  {
    Memory(map c | c in d.codes && d.codes[c].exp > now :: d.codes[c],
           map t | t in d.live :: if t in d.legacy then d.live[t].(family := drawn[t]) else d.live[t],
           map t | t in d.retired && d.retired[t].at > now - refreshTtl :: d.retired[t])
  }

  // ----- handlers -----

  function IssueAuthCode(m: Memory, d: Disk, code: Id, p: Pending): Outcome {
    var m' := m.(codes := m.codes[code := p]);
    Outcome(m', [WithCodes(d, m')], CodeIssued(code))
  }

  function ExchangeCode(m: Memory, d: Disk, client: string, code: Id, redirect: Option<string>, now: int,
                        token: Id, family: Id): Outcome {
    if code !in m.codes then Outcome(m, [], InvalidGrant)
    else
      var p := m.codes[code];
      var burned := m.(codes := m.codes - {code});
      var d' := WithCodes(d, burned);
      if p.exp < now || p.client != client || (redirect.Some? && redirect.value != p.redirect) then
        Outcome(burned, [d'], InvalidGrant)
      else
        var m' := burned.(live := m.live[token := Entry(p.address, client, p.scope, family)]);
        Outcome(m', [d', WithLive(d', m')], Tokens(token, p.scope))
  }

  /** An exchange is answered with tokens exactly for a code that is pending and not past its
      expiry, presented by its client with its redirect or none; a pending code is burned on
      every path, in memory and by the first write. */
  lemma ExchangeIff(m: Memory, d: Disk, client: string, code: Id, redirect: Option<string>, now: int,
                    token: Id, family: Id)
    ensures var o := ExchangeCode(m, d, client, code, redirect, now, token, family);
            && code !in o.mem.codes && (code in m.codes <==> |o.writes| > 0)
            && (forall i :: 0 <= i < |o.writes| ==> code !in o.writes[i].codes)
            && (o.reply.Tokens? || o.reply == InvalidGrant)
            && (o.reply.Tokens? <==>
                  && code in m.codes && now <= m.codes[code].exp && client == m.codes[code].client
                  && (redirect.None? || redirect.value == m.codes[code].redirect))
            && (o.reply.Tokens? ==>
                  var p := m.codes[code];
                  && o.reply == Tokens(token, p.scope)
                  && o.mem.live == m.live[token := Entry(p.address, p.client, p.scope, family)])
            && (!o.reply.Tokens? ==> o.mem.live == m.live)
  {
  }

  /** The live tokens of a family. */
  function Members(m: Memory, family: Id): set<Id> {
    set t | t in m.live && m.live[t].family == family
  }

  /** Moving a set of tokens from the live to the retired ones. */
  function RetireAll(m: Memory, tokens: set<Id>, family: Id, now: int): Memory {
    m.(live := m.live - tokens, retired := m.retired + map t | t in tokens :: Retired(family, now))
  }

  lemma RetireOneMore(m: Memory, tokens: set<Id>, t: Id, family: Id, now: int)
    ensures var r := RetireAll(m, tokens, family, now);
            RetireAll(m, tokens + {t}, family, now)
            == r.(live := r.live - {t}, retired := r.retired[t := Retired(family, now)])
  {
    var r, r' := RetireAll(m, tokens, family, now), RetireAll(m, tokens + {t}, family, now);
    assert r'.live == r.live - {t};
    assert r'.retired == r.retired[t := Retired(family, now)];
  }

  function RevokeFamily(m: Memory, d: Disk, family: Id, now: int): Outcome {
    var m' := RetireAll(m, Members(m, family), family, now);
    Outcome(m', if Members(m, family) == {} then [] else TokenWrites(d, m'), ReuseDetected(family))
  }

  function Retire(m: Memory, token: Id, now: int): Memory
    requires token in m.live
  {
    m.(live := m.live - {token}, retired := m.retired[token := Retired(m.live[token].family, now)])
  }

  function ExchangeRefresh(m: Memory, d: Disk, client: string, token: Id, now: int, next: Id): Outcome {
    if token in m.retired then RevokeFamily(m, d, m.retired[token].family, now)
    else if token !in m.live || m.live[token].client != client then Outcome(m, [], InvalidGrant)
    else
      var aged := Retire(m, token, now);
      var m' := aged.(live := aged.live[next := m.live[token]]);
      Outcome(m', TokenWrites(d, m'), Tokens(next, m.live[token].scope))
  }

  function RevokeToken(m: Memory, d: Disk, token: Id, now: int): Outcome {
    if token !in m.live then Outcome(m, [], Done)
    else
      var m' := Retire(m, token, now);
      Outcome(m', TokenWrites(d, m'), Done)
  }

  // ----- the provider object -----

  class Provider {
    var codes: map<Id, Pending>
    var live: map<Id, Entry>
    var retired: map<Id, Retired>
    var disk: Disk
    ghost var writes: seq<Disk>

    ghost function Mem(): Memory
      reads this
    {
      Memory(codes, live, retired)
    }

    /** This handler call had the given outcome. */
    twostate predicate Did(o: Outcome)
      reads this
    {
      && Mem() == o.mem && writes == old(writes) + o.writes
      && disk == if |o.writes| == 0 then old(disk) else o.writes[|o.writes| - 1]
    }

    constructor (d: Disk, now: int, refreshTtl: int, drawn: map<Id, Id>)
      requires d.legacy <= drawn.Keys
      ensures Mem() == Load(d, now, refreshTtl, drawn) && disk == d && writes == []
    {
      codes := map c | c in d.codes && d.codes[c].exp > now :: d.codes[c];
      live := map t | t in d.live :: if t in d.legacy then d.live[t].(family := drawn[t]) else d.live[t];
      retired := map t | t in d.retired && d.retired[t].at > now - refreshTtl :: d.retired[t];
      disk, writes := d, [];
    }

    method PersistCodes()
      modifies this`disk, this`writes
      ensures disk == WithCodes(old(disk), Mem()) && writes == old(writes) + [disk]
    {
      disk := disk.(codes := codes);
      writes := writes + [disk];
    }

    method PersistLive()
      modifies this`disk, this`writes
      ensures disk == WithLive(old(disk), Mem()) && writes == old(writes) + [disk]
    {
      disk := disk.(live := live, legacy := {});
      writes := writes + [disk];
    }

    method PersistRetired()
      modifies this`disk, this`writes
      ensures disk == WithRetired(old(disk), Mem()) && writes == old(writes) + [disk]
    {
      disk := disk.(retired := retired);
      writes := writes + [disk];
    }

    /** Both token files, live tokens first. */
    method PersistTokens()
      modifies this`disk, this`writes
      ensures writes == old(writes) + TokenWrites(old(disk), Mem()) && disk == TokenWrites(old(disk), Mem())[1]
    {
      PersistLive();
      PersistRetired();
    }

    method DoIssueAuthCode(code: Id, p: Pending) returns (r: Reply)
      modifies this
      ensures Did(IssueAuthCode(old(Mem()), old(disk), code, p))
      ensures r == IssueAuthCode(old(Mem()), old(disk), code, p).reply
    {
      codes := codes[code := p];
      PersistCodes();
      r := CodeIssued(code);
    }

    method DoExchangeCode(client: string, code: Id, redirect: Option<string>, now: int, token: Id, family: Id)
        returns (r: Reply)
      modifies this
      ensures Did(ExchangeCode(old(Mem()), old(disk), client, code, redirect, now, token, family))
      ensures r == ExchangeCode(old(Mem()), old(disk), client, code, redirect, now, token, family).reply
      ensures r.Tokens? <==>
                && code in old(codes) && now <= old(codes)[code].exp && client == old(codes)[code].client
                && (redirect.None? || redirect.value == old(codes)[code].redirect)
    {
      if code !in codes {
        return InvalidGrant;
      }
      var pending := codes[code];
      if pending.exp < now {
        codes := codes - {code};
        PersistCodes();
        return InvalidGrant;
      }
      if pending.client != client {
        codes := codes - {code};
        PersistCodes();
        return InvalidGrant;
      }
      if redirect.Some? && redirect.value != pending.redirect {
        codes := codes - {code};
        PersistCodes();
        return InvalidGrant;
      }
      codes := codes - {code};
      PersistCodes();
      live := live[token := Entry(pending.address, client, pending.scope, family)];
      PersistLive();
      return Tokens(token, pending.scope);
    }

    /** The loop deletes while it iterates; the count decides whether anything is written. */
    method DoRevokeFamily(family: Id, now: int) returns (n: nat)
      modifies this
      ensures Did(RevokeFamily(old(Mem()), old(disk), family, now))
      ensures n == |Members(old(Mem()), family)|
    {
      n := 0;
      var todo := live.Keys;
      ghost var was, done := Mem(), {};
      assert RetireAll(was, {}, family, now) == was;
      while todo != {}
        invariant todo <= was.live.Keys && done !! todo && n == |done| && disk == old(disk) && writes == old(writes)
        invariant forall t :: t in was.live && t !in todo ==> (t in done <==> t in Members(was, family))
        invariant done <= was.live.Keys && Mem() == RetireAll(was, done, family, now)
        decreases todo
      {
        var token :| token in todo;
        todo := todo - {token};
        if live[token].family == family {
          RetireOneMore(was, done, token, family, now);
          live := live - {token};
          retired := retired[token := Retired(family, now)];
          done := done + {token};
          n := n + 1;
        }
      }
      assert done == Members(was, family);
      if n > 0 {
        PersistTokens();
      }
    }

    method DoExchangeRefresh(client: string, token: Id, now: int, next: Id) returns (r: Reply)
      modifies this
      ensures Did(ExchangeRefresh(old(Mem()), old(disk), client, token, now, next))
      ensures r == ExchangeRefresh(old(Mem()), old(disk), client, token, now, next).reply
    {
      if token in retired {
        var family := retired[token].family;
        var _ := DoRevokeFamily(family, now);
        return ReuseDetected(family);
      }
      if token !in live || live[token].client != client {
        return InvalidGrant;
      }
      var stored := live[token];
      live := live - {token};
      retired := retired[token := Retired(stored.family, now)];
      live := live[next := stored];
      PersistLive();
      PersistRetired();
      return Tokens(next, stored.scope);
    }

    method DoRevokeToken(token: Id, now: int) returns (r: Reply)
      modifies this
      ensures Did(RevokeToken(old(Mem()), old(disk), token, now))
      ensures r == RevokeToken(old(Mem()), old(disk), token, now).reply
    {
      if token in live {
        var entry := live[token];
        live := live - {token};
        retired := retired[token := Retired(entry.family, now)];
        PersistLive();
        PersistRetired();
      }
      r := Done;
    }
  }
}
