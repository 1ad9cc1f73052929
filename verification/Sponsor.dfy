/** Invite codes and whitelisted senders (internal/sponsor/store.go). */
module Sponsor {
  import opened Bytes

  datatype Invite = Invite(createdAt: int, usedBy: Option<Address>, usedAt: Option<int>)

  datatype Member = Member(code: string, createdAt: int)

  /** The two tables, keyed by their primary keys. */
  datatype Tables = Tables(codes: map<string, Invite>, senders: map<Address, Member>)

  /** DbError: the engine refused a statement, and the transaction was rolled back. */
  datatype Redemption = Redeemed | AlreadyMember | InvalidCode | CodeUsed | DbError

  // ----- transactions as functions -----

  predicate DistinctCodes(cs: seq<string>) { forall i, j :: 0 <= i < j < |cs| ==> cs[i] != cs[j] }

  /** The inserts all succeed exactly when the drawn codes are new and pairwise different. */
  predicate AllNew(t: Tables, draws: seq<string>) {
    DistinctCodes(draws) && forall i :: 0 <= i < |draws| ==> draws[i] !in t.codes
  }

  function WithCodes(t: Tables, draws: seq<string>, now: int): Tables {
    t.(codes := t.codes + map c | c in draws :: Invite(now, None, None))
  }

  function Generated(t: Tables, draws: seq<string>, now: int): Tables {
    if AllNew(t, draws) then WithCodes(t, draws, now) else t
  }

  function RedeemOutcome(t: Tables, code: string, sender: Address): Redemption {
    if sender in t.senders then AlreadyMember
    else if code !in t.codes then InvalidCode
    else if t.codes[code].usedBy.Some? then CodeUsed
    else Redeemed
  }

  function AfterRedeem(t: Tables, code: string, sender: Address, now: int): Tables {
    if RedeemOutcome(t, code, sender) != Redeemed then t
    else Tables(t.codes[code := t.codes[code].(usedBy := Some(sender), usedAt := Some(now))],
                t.senders[sender := Member(code, now)])
  }

  // ----- the store -----

  class Store {
    var tables: Tables

    constructor()
      ensures tables == Tables(map[], map[])
    {
      tables := Tables(map[], map[]);
    }

    /** draws are the random codes; a primary-key clash or an engine error rolls the whole transaction
        back. */
    method GenerateCodes(draws: seq<string>, io: bool, now: int) returns (ok: bool)
      modifies this
      ensures ok <==>
        && io && (forall i, j :: 0 <= i < j < |draws| ==> draws[i] != draws[j])
        && (forall i :: 0 <= i < |draws| ==> draws[i] !in old(tables.codes))
      ensures ok ==>
        && tables.senders == old(tables.senders)
        && (forall code :: code in tables.codes <==> code in old(tables.codes) || code in draws)
        && (forall code :: code in old(tables.codes) ==> tables.codes[code] == old(tables.codes)[code])
        && (forall code :: code in draws ==> tables.codes[code] == Invite(now, None, None))
      ensures tables == old(Apply(tables, Generate(draws, now, io)))
      ensures tables != old(tables) <==> ok && draws != []
    {
      var tx := tables;
      for i := 0 to |draws|
        invariant AllNew(tables, draws[..i]) && tx == WithCodes(tables, draws[..i], now)
        invariant tables == old(tables)
      {
        var code := draws[i];
        if code in tx.codes {
          ClashIsNotNew(tables, draws, i, now);
          return false;
        }
        tx := tx.(codes := tx.codes[code := Invite(now, None, None)]);
        ExtendNew(tables, draws, i, now);
      }
      assert draws[..|draws|] == draws;
      if !io { return false; }
      if draws != [] { assert draws[0] in tx.codes && draws[0] !in tables.codes; }
      tables := tx;
      ok := true;
    }

    /** A sender passes exactly when it has redeemed some code; an engine error fails it. */
    method CheckSender(sender: Address, io: bool) returns (yes: bool)
      ensures Paired(tables) ==>
        (yes <==> io && exists c :: c in tables.codes && tables.codes[c].usedBy == Some(sender))
      ensures yes ==> sender in tables.senders
    {
      yes := io && sender in tables.senders;
      if yes && Paired(tables) { assert tables.codes[tables.senders[sender].code].usedBy == Some(sender); }
    }

    /** One transaction of two queries and two statements. io(i) is whether the engine carries out the
        i-th of them and, last, the commit; whatever stops the transaction rolls it back. Only a
        redemption changes the tables: it uses up one unused code and admits one new sender. */
    method RedeemCode(code: string, sender: Address, io: nat -> bool, now: int) returns (r: Redemption)
      modifies this
      ensures (forall i :: io(i)) ==> r != DbError
      ensures r == AlreadyMember ==> sender in old(tables.senders)
      ensures r == InvalidCode ==> sender !in old(tables.senders) && code !in old(tables.codes)
      ensures r == CodeUsed ==>
        sender !in old(tables.senders) && code in old(tables.codes) && old(tables.codes)[code].usedBy.Some?
      ensures r == Redeemed ==>
        && sender !in old(tables.senders) && code in old(tables.codes) && old(tables.codes)[code].usedBy.None?
        && tables.codes == old(tables.codes)[code := Invite(old(tables.codes)[code].createdAt, Some(sender), Some(now))]
        && tables.senders == old(tables.senders)[sender := Member(code, now)]
      ensures r == Redeemed <==> tables != old(tables)
      ensures r == Redeemed ==>
        && UsedCodes(tables) == old(UsedCodes(tables)) + {code} && code !in old(UsedCodes(tables))
        && tables.senders.Keys == old(tables.senders.Keys) + {sender} && sender !in old(tables.senders)
        && tables.codes.Keys == old(tables.codes.Keys)
      ensures tables == old(Apply(tables, Redeem(code, sender, now, r == Redeemed)))
      ensures old(Paired(tables) && Balanced(tables)) ==> Paired(tables) && Balanced(tables)
    {
      var saved := tables;
      r := Redeeming(code, sender, io, now);
      if r != Redeemed { tables := saved; }
      if Paired(saved) && Balanced(saved) { StepKeeps(saved, Redeem(code, sender, now, r == Redeemed)); }
      if r == Redeemed {
        assert sender in tables.senders;
        RedeemUsesUp(saved, code, sender, now);
      }
    }

    /** The statements, before the deferred rollback. */
    method Redeeming(code: string, sender: Address, io: nat -> bool, now: int) returns (r: Redemption)
      modifies this
      ensures (forall i :: io(i)) ==> r == old(RedeemOutcome(tables, code, sender))
      ensures r == DbError || r == old(RedeemOutcome(tables, code, sender))
      ensures r == Redeemed ==> tables == old(AfterRedeem(tables, code, sender, now))
    {
      if !io(0) { return DbError; }
      if sender in tables.senders { return AlreadyMember; }
      if !io(1) { return DbError; }
      if code !in tables.codes { return InvalidCode; }
      if tables.codes[code].usedBy.Some? { return CodeUsed; }
      if !io(2) { return DbError; }
      var used := tables.codes[code].(usedBy := Some(sender), usedAt := Some(now));
      tables := tables.(codes := tables.codes[code := used]);
      if !io(3) { return DbError; }
      tables := tables.(senders := tables.senders[sender := Member(code, now)]);
      return if io(4) then Redeemed else DbError;
    }
  }

  lemma RedeemUsesUp(t: Tables, code: string, sender: Address, now: int)
    requires RedeemOutcome(t, code, sender) == Redeemed
    ensures var u := AfterRedeem(t, code, sender, now);
      && UsedCodes(u) == UsedCodes(t) + {code} && code !in UsedCodes(t)
      && u.senders.Keys == t.senders.Keys + {sender} && u.codes.Keys == t.codes.Keys
  {}

  lemma ClashIsNotNew(t: Tables, draws: seq<string>, i: nat, now: int)
    requires i < |draws| && draws[i] in WithCodes(t, draws[..i], now).codes
    ensures !AllNew(t, draws)
  {
    if draws[i] !in t.codes {
      var j :| 0 <= j < i && draws[..i][j] == draws[i];
      assert draws[j] == draws[i];
    }
  }

  lemma SnocCodes(m: map<string, Invite>, a: seq<string>, x: string, v: Invite)
    ensures m + (map c | c in a + [x] :: v) == (m + (map c | c in a :: v))[x := v]
  {
    var l, r := m + (map c | c in a + [x] :: v), (m + (map c | c in a :: v))[x := v];
    assert forall c :: c in a + [x] <==> c in a || c == x;
    assert l.Keys == r.Keys;
    forall c | c in l ensures l[c] == r[c] {}
  }

  lemma NewDraw(t: Tables, draws: seq<string>, i: nat)
    requires i < |draws| && AllNew(t, draws[..i]) && draws[i] !in draws[..i] && draws[i] !in t.codes
    ensures AllNew(t, draws[..i + 1])
  {
    var a, b := draws[..i], draws[..i + 1];
    assert forall j :: 0 <= j < i ==> a[j] == b[j];
    forall j | 0 <= j < |b| ensures b[j] !in t.codes { if j < i { assert a[j] !in t.codes; } }
    forall j, k | 0 <= j < k < |b| ensures b[j] != b[k] { if k < i { assert a[j] != a[k]; } else { assert a[j] in a; } }
  }

  lemma ExtendNew(t: Tables, draws: seq<string>, i: nat, now: int)
    requires i < |draws| && AllNew(t, draws[..i]) && draws[i] !in WithCodes(t, draws[..i], now).codes
    ensures AllNew(t, draws[..i + 1])
    ensures WithCodes(t, draws[..i + 1], now).codes
         == WithCodes(t, draws[..i], now).codes[draws[i] := Invite(now, None, None)]
  {
    NewDraw(t, draws, i);
    SnocCodes(t.codes, draws[..i], draws[i], Invite(now, None, None));
    assert draws[..i + 1] == draws[..i] + [draws[i]];
  }

  // ----- conservation over runs -----

  /** used_by and invite_code are inverse to each other. */
  ghost predicate Paired(t: Tables) {
    && (forall c :: c in t.codes && t.codes[c].usedBy.Some? ==>
          t.codes[c].usedBy.value in t.senders && t.senders[t.codes[c].usedBy.value].code == c)
    && (forall a :: a in t.senders ==>
          t.senders[a].code in t.codes && t.codes[t.senders[a].code].usedBy == Some(a))
  }

  function UsedCodes(t: Tables): set<string> { set c | c in t.codes && t.codes[c].usedBy.Some? }

  /** A call of the store; io: the engine carried it out. */
  datatype Step =
    | Generate(draws: seq<string>, now: int, io: bool)
    | Redeem(code: string, sender: Address, now: int, io: bool)

  function Apply(t: Tables, s: Step): Tables {
    if !s.io then t
    else
      match s
      case Generate(draws, now, _) => Generated(t, draws, now)
      case Redeem(code, sender, now, _) => AfterRedeem(t, code, sender, now)
  }

  ghost predicate StepAt(ts: seq<Tables>, ss: seq<Step>, i: int) {
    0 <= i < |ss| && i + 1 < |ts| && ts[i + 1] == Apply(ts[i], ss[i])
  }

  ghost predicate Run(ts: seq<Tables>, ss: seq<Step>) {
    && |ts| == |ss| + 1 && ts[0] == Tables(map[], map[])
    && forall i :: 0 <= i < |ss| ==> StepAt(ts, ss, i)
  }

  /** Nothing used is reassigned, nobody whitelisted changes code, no code disappears. */
  ghost predicate Extends(t: Tables, u: Tables) {
    && t.codes.Keys <= u.codes.Keys
    && (forall c :: c in UsedCodes(t) ==> c in u.codes && u.codes[c] == t.codes[c])
    && (forall a :: a in t.senders ==> a in u.senders && u.senders[a] == t.senders[a])
  }

  /** As many used codes as senders. */
  ghost predicate Balanced(t: Tables) { |UsedCodes(t)| == |t.senders.Keys| }

  lemma GenerateKeeps(t: Tables, draws: seq<string>, now: int)
    requires Paired(t) && Balanced(t)
    ensures var u := Generated(t, draws, now); Paired(u) && Balanced(u) && Extends(t, u)
  {
    GeneratedAdds(t, draws, now);
    AddingKeeps(t, Generated(t, draws, now));
  }

  /** u is t with more unused codes. */
  ghost predicate AddsUnused(t: Tables, u: Tables) {
    && u.senders == t.senders
    && (forall c :: c in t.codes ==> c in u.codes && u.codes[c] == t.codes[c])
    && (forall c :: c in u.codes && c !in t.codes ==> u.codes[c].usedBy.None?)
  }

  lemma GeneratedAdds(t: Tables, draws: seq<string>, now: int)
    ensures AddsUnused(t, Generated(t, draws, now))
  {
    if AllNew(t, draws) {
      forall c | c in draws ensures c !in t.codes {
        var i :| 0 <= i < |draws| && draws[i] == c;
      }
    }
  }

  lemma AddingKeeps(t: Tables, u: Tables)
    requires Paired(t) && Balanced(t) && AddsUnused(t, u)
    ensures Paired(u) && Balanced(u) && Extends(t, u)
  {
    assert UsedCodes(u) == UsedCodes(t);
  }

  lemma RedeemKeeps(t: Tables, code: string, sender: Address, now: int)
    requires Paired(t) && RedeemOutcome(t, code, sender) == Redeemed
    ensures var u := AfterRedeem(t, code, sender, now);
      Paired(u) && Extends(t, u) && UsedCodes(u) == UsedCodes(t) + {code} && u.senders.Keys == t.senders.Keys + {sender}
  {}

  lemma RedeemBalances(t: Tables, code: string, sender: Address, now: int)
    requires Paired(t) && Balanced(t)
    ensures var u := AfterRedeem(t, code, sender, now); Paired(u) && Balanced(u) && Extends(t, u)
  {
    if RedeemOutcome(t, code, sender) == Redeemed { RedeemKeeps(t, code, sender, now); }
  }

  /** One step keeps the pairing, spends a code exactly when it adds a sender, and never reassigns. */
  lemma StepKeeps(t: Tables, s: Step)
    requires Paired(t) && Balanced(t)
    ensures Paired(Apply(t, s)) && Balanced(Apply(t, s)) && Extends(t, Apply(t, s))
  {
    match s
    case Generate(draws, now, _) => GenerateKeeps(t, draws, now);
    case Redeem(code, sender, now, _) => RedeemBalances(t, code, sender, now);
  }

  /** Over every run: whitelisted senders and used codes are in bijection. */
  lemma {:induction false} InvitesConserved(ts: seq<Tables>, ss: seq<Step>, n: nat)
    requires Run(ts, ss) && n < |ts|
    ensures Paired(ts[n]) && Balanced(ts[n])
  {
    if n == 0 {
      assert UsedCodes(ts[0]) == {};
    } else {
      InvitesConserved(ts, ss, n - 1);
      assert StepAt(ts, ss, n - 1);
      StepKeeps(ts[n - 1], ss[n - 1]);
    }
  }

  lemma StepExtends(ts: seq<Tables>, ss: seq<Step>, n: nat)
    requires Run(ts, ss) && n < |ss|
    ensures Extends(ts[n], ts[n + 1])
  {
    InvitesConserved(ts, ss, n);
    assert StepAt(ts, ss, n);
    StepKeeps(ts[n], ss[n]);
  }

  lemma ExtendsTransitive(t: Tables, u: Tables, v: Tables)
    requires Extends(t, u) && Extends(u, v)
    ensures Extends(t, v)
  {
    forall c | c in UsedCodes(t) ensures c in v.codes && v.codes[c] == t.codes[c] {
      assert c in UsedCodes(u);
    }
  }

  /** Over every run: a used code keeps its owner for ever, and a whitelisted sender keeps the one code
      it redeemed. */
  lemma {:induction false} OwnershipIsFinal(ts: seq<Tables>, ss: seq<Step>, m: nat, n: nat)
    requires Run(ts, ss) && m <= n < |ts|
    ensures Extends(ts[m], ts[n])
    decreases n
  {
    if m < n {
      OwnershipIsFinal(ts, ss, m, n - 1);
      StepExtends(ts, ss, n - 1);
      ExtendsTransitive(ts[m], ts[n - 1], ts[n]);
    }
  }

  /** No two codes share a user: a whitelisted sender consumed exactly one code. */
  lemma OneCodePerSender(ts: seq<Tables>, ss: seq<Step>, n: nat, c: string, d: string)
    requires Run(ts, ss) && n < |ts| && c in UsedCodes(ts[n]) && d in UsedCodes(ts[n])
    requires ts[n].codes[c].usedBy == ts[n].codes[d].usedBy
    ensures c == d
  {
    InvitesConserved(ts, ss, n);
  }

  /** A call changes the tables exactly when the engine carries it out and it either redeems an
      existing unused code for a new sender or adds at least one code, all of them new. */
  lemma FailuresChangeNothing(t: Tables, s: Step)
    ensures Apply(t, s) != t <==>
      && s.io
      && (if s.Redeem? then RedeemOutcome(t, s.code, s.sender) == Redeemed else AllNew(t, s.draws) && s.draws != [])
  {
    if s.Redeem? {
      if RedeemOutcome(t, s.code, s.sender) == Redeemed { assert s.io ==> s.sender in Apply(t, s).senders; }
    } else if AllNew(t, s.draws) && s.draws != [] {
      assert s.draws[0] !in t.codes;
      assert s.io ==> s.draws[0] in Apply(t, s).codes;
    } else if s.draws == [] {
      assert WithCodes(t, [], s.now).codes == t.codes;
    }
  }
}
