/**
 Pairing (`pairing.ts`, `agent-service.ts`): a code is issued, read by a redeemer, and exchanged for a token, while
 other operators reissue, unpair, purge and delete. Each database transaction is one function on the tables (and one
 method, statement by statement, below); the machine interleaves them with everything that awaits in between.
 The grant log, the ids ever used and how many grants preceded each code are records no transaction reads.
 */
module Pairing {
  import opened Wrappers

  datatype Agent = Agent(tokenHash: Option<nat>, hostname: string)

  datatype Code = Code(agent: nat, text: string, expiresAt: int, consumedAt: Option<int>)

  datatype Tables = Tables(agents: map<nat, Agent>, codes: map<nat, Code>)

  // ---------------------------------------------------------------- the transactions

  predicate Outstanding(c: Code, agent: nat) { c.agent == agent && c.consumedAt.None? }

  /** `deleteMany({ where: { agentId, consumedAt: null } })` */
  function WithoutOutstanding(codes: map<nat, Code>, agent: nat): map<nat, Code> {
    map id | id in codes && !Outstanding(codes[id], agent) :: codes[id]
  }

  predicate TextFree(codes: map<nat, Code>, text: string) { forall id :: id in codes ==> codes[id].text != text }

  /** The issuing transaction commits only for an agent still there and a text no remaining code uses. */
  predicate Issues(t: Tables, agent: nat, text: string) {
    agent in t.agents && TextFree(WithoutOutstanding(t.codes, agent), text)
  }

  function Issued(t: Tables, agent: nat, id: nat, code: Code): Tables {
    t.(codes := WithoutOutstanding(t.codes, agent)[id := code])
  }

  /** The guard of the conditional update. */
  predicate Claimable(t: Tables, id: nat, now: int) {
    id in t.codes && t.codes[id].consumedAt.None? && t.codes[id].expiresAt > now
  }

  /** Both updates commit, or neither: the code is consumed and the agent's token hash written. */
  function ClaimedBy(t: Tables, id: nat, agent: nat, now: int, token: nat, hostname: string): Tables
    requires id in t.codes
  {
    Tables(t.agents[agent := Agent(Some(token), hostname)], t.codes[id := t.codes[id].(consumedAt := Some(now))])
  }

  function Purged(t: Tables, now: int): Tables {
    t.(codes := map id | id in t.codes && !(t.codes[id].consumedAt.None? && t.codes[id].expiresAt <= now) :: t.codes[id])
  }

  function Unpaired(t: Tables, agent: nat): Tables
    requires agent in t.agents
  {
    t.(agents := t.agents[agent := t.agents[agent].(tokenHash := None)])
  }

  /** Codes go with their agent. */
  function Deleted(t: Tables, agent: nat): Tables {
    Tables(t.agents - {agent}, map id | id in t.codes && t.codes[id].agent != agent :: t.codes[id])
  }

  // ---------------------------------------------------------------- the machine

  /** An operation between two of its awaits. */
  datatype Op =
    | Issuing(agent: nat, asked: int)
    | Checking(agent: nat)
    | Reading(text: string, asked: int)
    | Claiming(id: nat, agent: nat, asked: int, token: nat)
    | Ended

  /** A committed redemption: `asked` is the moment its redeemer began, `committed` the moment it took effect. */
  datatype Grant = Grant(code: nat, agent: nat, token: nat, asked: int, committed: int, expiresAt: int)

  datatype State = State(
    tables: Tables,
    ops: seq<Op>,
    clock: int,
    grants: seq<Grant>,
    drawn: nat,
    born: map<nat, nat>,
    codesUsed: set<nat>,
    agentsUsed: set<nat>)

  datatype Action =
    | Tick(to: int)
    | CreateAgent(agent: nat)
    | Regenerate(agent: nat)
    | CheckUnpaired(i: nat)
    | Issue(i: nat, id: nat, text: string, ttl: nat)
    | Unpair(agent: nat)
    | DeleteAgent(agent: nat)
    | Purge(now: int)
    | Redeem(text: string)
    | ReadCode(i: nat)
    | Claim(i: nat, hostname: string)
    | Drop(i: nat)

  predicate Enabled(s: State, a: Action) {
    match a
    case Tick(to) => to >= s.clock
    case CreateAgent(agent) => agent !in s.agentsUsed
    case Regenerate(_) => true
    case CheckUnpaired(i) => i < |s.ops| && s.ops[i].Checking?
    case Issue(i, id, _, _) => i < |s.ops| && s.ops[i].Issuing? && id !in s.codesUsed
    case Unpair(agent) => agent in s.tables.agents
    case DeleteAgent(agent) => agent in s.tables.agents
    case Purge(_) => true
    case Redeem(_) => true
    case ReadCode(i) => i < |s.ops| && s.ops[i].Reading?
    case Claim(i, _) => i < |s.ops| && s.ops[i].Claiming?
    case Drop(i) => i < |s.ops|
  }

  function At(s: State, i: nat, op: Op): State
    requires i < |s.ops|
  {
    s.(ops := s.ops[i := op])
  }

  function Begun(s: State, op: Op): State { s.(ops := s.ops + [op]) }

  predicate HasText(codes: map<nat, Code>, text: string) { exists id :: id in codes && codes[id].text == text }

  /** What `findUnique({ where: { code } })` leads to; the token is drawn afresh. */
  ghost function Read(s: State, text: string, asked: int): Op {
    if HasText(s.tables.codes, text) then
      var id :| id in s.tables.codes && s.tables.codes[id].text == text;
      var c := s.tables.codes[id];
      if c.consumedAt.Some? || c.expiresAt <= asked then Ended else Claiming(id, c.agent, asked, s.drawn)
    else Ended
  }

  ghost function Apply(s: State, a: Action): State
    requires Enabled(s, a)
  {
    match a
    case Tick(to) => s.(clock := to)
    case CreateAgent(agent) =>
      Begun(s, Issuing(agent, s.clock))
        .(tables := s.tables.(agents := s.tables.agents[agent := Agent(None, "")]), agentsUsed := s.agentsUsed + {agent})
    case Regenerate(agent) => Begun(s, Checking(agent))
    case CheckUnpaired(i) =>
      var agent := s.ops[i].agent;
      At(s, i, if agent in s.tables.agents && s.tables.agents[agent].tokenHash.None? then Issuing(agent, s.clock) else Ended)
    case Issue(i, id, text, ttl) =>
      var op := s.ops[i];
      if Issues(s.tables, op.agent, text) then
        At(s, i, Ended)
          .(tables := Issued(s.tables, op.agent, id, Code(op.agent, text, op.asked + ttl, None)),
            born := s.born[id := |s.grants|],
            codesUsed := s.codesUsed + {id})
      else At(s, i, Ended)
    case Unpair(agent) => Begun(s, Issuing(agent, s.clock)).(tables := Unpaired(s.tables, agent))
    case DeleteAgent(agent) => s.(tables := Deleted(s.tables, agent))
    case Purge(now) => s.(tables := Purged(s.tables, now))
    case Redeem(text) => Begun(s, Reading(text, s.clock))
    case ReadCode(i) => At(s, i, Read(s, s.ops[i].text, s.ops[i].asked)).(drawn := s.drawn + 1)
    case Claim(i, hostname) =>
      var op := s.ops[i];
      if Claimable(s.tables, op.id, op.asked) && op.agent in s.tables.agents then
        At(s, i, Ended)
          .(tables := ClaimedBy(s.tables, op.id, op.agent, op.asked, op.token, hostname),
            grants := s.grants + [Grant(op.id, op.agent, op.token, op.asked, s.clock, s.tables.codes[op.id].expiresAt)])
      else At(s, i, Ended)
    case Drop(i) => At(s, i, Ended)
  }

  function Init(): State { State(Tables(map[], map[]), [], 0, [], 0, map[], {}, {}) }

  ghost predicate Legal(s: State, run: seq<Action>)
    decreases |run|, 0
  {
    run == [] || (Legal(s, run[..|run| - 1]) && Enabled(After(s, run[..|run| - 1]), run[|run| - 1]))
  }

  ghost function After(s: State, run: seq<Action>): State
    requires Legal(s, run)
    decreases |run|, 1
  {
    if run == [] then s else Apply(After(s, run[..|run| - 1]), run[|run| - 1])
  }

  // ---------------------------------------------------------------- the invariant

  ghost predicate CodesInv(t: Tables, codesUsed: set<nat>, agentsUsed: set<nat>) {
    && (forall id :: id in t.codes ==> id in codesUsed && t.codes[id].agent in t.agents)
    && (forall a :: a in t.agents ==> a in agentsUsed)
    && (forall i, j :: i in t.codes && j in t.codes && t.codes[i].text == t.codes[j].text ==> i == j)
    && (forall i, j :: i in t.codes && j in t.codes && t.codes[i].consumedAt.None? && Outstanding(t.codes[j], t.codes[i].agent) ==> i == j)
  }

  /**
   A code is consumed by exactly the one grant that names it, and a code not consumed is newer than its agent's
   grants.
   */
  ghost predicate GrantsInv(codes: map<nat, Code>, grants: seq<Grant>, born: map<nat, nat>, codesUsed: set<nat>) {
    && (forall k :: 0 <= k < |grants| ==> grants[k].code in codesUsed && grants[k].asked < grants[k].expiresAt)
    && (forall j, k :: 0 <= j < k < |grants| ==> grants[j].code != grants[k].code && grants[j].token != grants[k].token)
    && (forall k :: 0 <= k < |grants| && grants[k].code in codes ==>
          codes[grants[k].code].consumedAt == Some(grants[k].asked) && codes[grants[k].code].agent == grants[k].agent)
    && (forall id :: id in codes && codes[id].consumedAt.Some? ==> Granted(grants, id))
    && (forall id, k :: id in codes && codes[id].consumedAt.None? && 0 <= k < |grants| && grants[k].agent == codes[id].agent ==>
          id in born && k < born[id])
    && (forall id :: id in codes ==> id in born && born[id] <= |grants|)
  }

  ghost predicate Granted(grants: seq<Grant>, id: nat) { exists k :: 0 <= k < |grants| && grants[k].code == id }

  ghost predicate LastGrant(grants: seq<Grant>, agent: nat, token: nat) {
    exists k :: 0 <= k < |grants| && grants[k].agent == agent && grants[k].token == token
      && forall j :: k < j < |grants| ==> grants[j].agent != agent
  }

  /** A token hash is the one the latest grant to its agent wrote. */
  ghost predicate TokensInv(agents: map<nat, Agent>, grants: seq<Grant>) {
    forall a :: a in agents && agents[a].tokenHash.Some? ==> LastGrant(grants, a, agents[a].tokenHash.value)
  }

  /** What an operation remembers of a code is still so, if the code is still there; its token is its own. */
  ghost predicate OpInv(codes: map<nat, Code>, grants: seq<Grant>, drawn: nat, codesUsed: set<nat>, op: Op) {
    op.Claiming? ==>
      && op.id in codesUsed && op.token < drawn
      && (forall k :: 0 <= k < |grants| ==> grants[k].token != op.token)
      && (op.id in codes ==> codes[op.id].agent == op.agent && codes[op.id].expiresAt > op.asked)
  }

  ghost predicate OpsInv(codes: map<nat, Code>, grants: seq<Grant>, drawn: nat, codesUsed: set<nat>, ops: seq<Op>) {
    && (forall i :: 0 <= i < |ops| ==> OpInv(codes, grants, drawn, codesUsed, ops[i]))
    && (forall i, j :: 0 <= i < j < |ops| && ops[i].Claiming? && ops[j].Claiming? ==> ops[i].token != ops[j].token)
    && (forall k :: 0 <= k < |grants| ==> grants[k].token < drawn)
  }

  ghost predicate Inv(s: State) {
    && CodesInv(s.tables, s.codesUsed, s.agentsUsed)
    && GrantsInv(s.tables.codes, s.grants, s.born, s.codesUsed)
    && TokensInv(s.tables.agents, s.grants)
    && OpsInv(s.tables.codes, s.grants, s.drawn, s.codesUsed, s.ops)
  }

  // ---------------------------------------------------------------- every step keeps it

  /** Some codes are gone and the rest are as they were. */
  ghost predicate Fewer(codes: map<nat, Code>, left: map<nat, Code>) {
    forall id :: id in left ==> id in codes && left[id] == codes[id]
  }

  lemma FewerKeeps(codes: map<nat, Code>, left: map<nat, Code>, grants: seq<Grant>, drawn: nat, born: map<nat, nat>,
                   codesUsed: set<nat>, ops: seq<Op>)
    requires Fewer(codes, left) && GrantsInv(codes, grants, born, codesUsed)
    requires OpsInv(codes, grants, drawn, codesUsed, ops)
    ensures GrantsInv(left, grants, born, codesUsed) && OpsInv(left, grants, drawn, codesUsed, ops)
  {
    hide Granted;
    forall i | 0 <= i < |ops| ensures OpInv(left, grants, drawn, codesUsed, ops[i]) {
      assert OpInv(codes, grants, drawn, codesUsed, ops[i]);
    }
  }

  lemma OpStep(codes: map<nat, Code>, grants: seq<Grant>, drawn: nat, codesUsed: set<nat>, ops: seq<Op>, i: nat, op: Op)
    requires OpsInv(codes, grants, drawn, codesUsed, ops) && i < |ops| && !op.Claiming?
    ensures OpsInv(codes, grants, drawn, codesUsed, ops[i := op])
  {
    hide OpInv;
    assert OpInv(codes, grants, drawn, codesUsed, op) by { NoClaim(codes, grants, drawn, codesUsed, op); }
  }

  lemma NoClaim(codes: map<nat, Code>, grants: seq<Grant>, drawn: nat, codesUsed: set<nat>, op: Op)
    requires !op.Claiming?
    ensures OpInv(codes, grants, drawn, codesUsed, op)
  {
  }

  lemma OpBegun(codes: map<nat, Code>, grants: seq<Grant>, drawn: nat, codesUsed: set<nat>, ops: seq<Op>, op: Op)
    requires OpsInv(codes, grants, drawn, codesUsed, ops) && !op.Claiming?
    ensures OpsInv(codes, grants, drawn, codesUsed, ops + [op])
  {
    NoClaim(codes, grants, drawn, codesUsed, op);
    hide OpInv;
  }

  lemma IssueKeepsInv(s: State, i: nat, id: nat, text: string, ttl: nat)
    requires Inv(s) && Enabled(s, Issue(i, id, text, ttl))
    ensures Inv(Apply(s, Issue(i, id, text, ttl)))
  {
    hide CodesInv, GrantsInv, TokensInv, OpsInv;
    var t, op := s.tables, s.ops[i];
    OpStep(t.codes, s.grants, s.drawn, s.codesUsed, s.ops, i, Ended);
    if Issues(t, op.agent, text) {
      var left := WithoutOutstanding(t.codes, op.agent);
      var ops := s.ops[i := Ended];
      FewerKeeps(t.codes, left, s.grants, s.drawn, s.born, s.codesUsed, ops);
      var code := Code(op.agent, text, op.asked + ttl, None);
      IssuedGrants(left, s.grants, s.born, s.codesUsed, id, code);
      IssuedOps(left, s.grants, s.drawn, s.codesUsed, ops, id, code);
      IssuedCodes(t, s.codesUsed, s.agentsUsed, op.agent, id, code);
    }
  }

  lemma IssuedCodes(t: Tables, codesUsed: set<nat>, agentsUsed: set<nat>, agent: nat, id: nat, code: Code)
    requires CodesInv(t, codesUsed, agentsUsed) && id !in codesUsed && Issues(t, agent, code.text)
    requires code.agent == agent && code.consumedAt.None?
    ensures CodesInv(Issued(t, agent, id, code), codesUsed + {id}, agentsUsed)
  {
  }

  lemma IssuedGrants(left: map<nat, Code>, grants: seq<Grant>, born: map<nat, nat>, codesUsed: set<nat>, id: nat,
                     code: Code)
    requires GrantsInv(left, grants, born, codesUsed) && id !in codesUsed && code.consumedAt.None?
    ensures GrantsInv(left[id := code], grants, born[id := |grants|], codesUsed + {id})
  {
    hide Granted;
  }

  lemma IssuedOps(left: map<nat, Code>, grants: seq<Grant>, drawn: nat, codesUsed: set<nat>, ops: seq<Op>, id: nat,
                  code: Code)
    requires OpsInv(left, grants, drawn, codesUsed, ops) && id !in codesUsed
    ensures OpsInv(left[id := code], grants, drawn, codesUsed + {id}, ops)
  {
    forall i | 0 <= i < |ops| ensures OpInv(left[id := code], grants, drawn, codesUsed + {id}, ops[i]) {
      assert OpInv(left, grants, drawn, codesUsed, ops[i]);
    }
  }

  lemma ReadKeepsInv(s: State, i: nat)
    requires Inv(s) && Enabled(s, ReadCode(i))
    ensures Inv(Apply(s, ReadCode(i)))
  {
    var op := Read(s, s.ops[i].text, s.ops[i].asked);
    ReadOps(s.tables.codes, s.grants, s.drawn, s.codesUsed, s.ops, i, op) by {
      hide GrantsInv, TokensInv, OpsInv;
    }
    hide CodesInv, GrantsInv, TokensInv, OpsInv, Read;
  }

  lemma ReadOps(codes: map<nat, Code>, grants: seq<Grant>, drawn: nat, codesUsed: set<nat>, ops: seq<Op>, i: nat,
                op: Op)
    requires OpsInv(codes, grants, drawn, codesUsed, ops) && i < |ops|
    requires op.Claiming? ==>
      op.id in codesUsed && op.id in codes && codes[op.id].agent == op.agent && codes[op.id].expiresAt > op.asked && op.token == drawn
    ensures OpsInv(codes, grants, drawn + 1, codesUsed, ops[i := op])
  {
    forall j | 0 <= j < |ops| ensures OpInv(codes, grants, drawn, codesUsed, ops[j]) {
    }
  }

  lemma ClaimKeepsInv(s: State, i: nat, hostname: string)
    requires Inv(s) && Enabled(s, Claim(i, hostname))
    ensures Inv(Apply(s, Claim(i, hostname)))
  {
    var t, op := s.tables, s.ops[i];
    OpStep(t.codes, s.grants, s.drawn, s.codesUsed, s.ops, i, Ended);
    if Claimable(t, op.id, op.asked) && op.agent in t.agents {
      assert OpInv(t.codes, s.grants, s.drawn, s.codesUsed, op);
      var c := t.codes[op.id];
      var g := Grant(op.id, op.agent, op.token, op.asked, s.clock, c.expiresAt);
      var t' := ClaimedBy(t, op.id, op.agent, op.asked, op.token, hostname);
      ClaimedCodes(t, s.codesUsed, s.agentsUsed, op, hostname);
      ClaimedGrants(t, s.grants, s.born, s.codesUsed, s.agentsUsed, g);
      ClaimedTokens(t.agents, s.grants, g, hostname);
      ClaimedOps(t.codes, s.grants, s.drawn, s.codesUsed, s.ops, i, g);
      hide CodesInv, GrantsInv, TokensInv, OpsInv;
    }
  }

  lemma ClaimedCodes(t: Tables, codesUsed: set<nat>, agentsUsed: set<nat>, op: Op, hostname: string)
    requires CodesInv(t, codesUsed, agentsUsed) && op.Claiming? && op.id in t.codes && t.codes[op.id].agent == op.agent
    ensures CodesInv(ClaimedBy(t, op.id, op.agent, op.asked, op.token, hostname), codesUsed, agentsUsed)
  {
  }

  lemma ClaimedGrants(t: Tables, grants: seq<Grant>, born: map<nat, nat>, codesUsed: set<nat>, agentsUsed: set<nat>,
                      g: Grant)
    requires CodesInv(t, codesUsed, agentsUsed) && GrantsInv(t.codes, grants, born, codesUsed)
    requires g.code in t.codes && t.codes[g.code].consumedAt.None? && t.codes[g.code].agent == g.agent
    requires g.asked < g.expiresAt
    requires forall k :: 0 <= k < |grants| ==> grants[k].token != g.token
    ensures GrantsInv(t.codes[g.code := t.codes[g.code].(consumedAt := Some(g.asked))], grants + [g], born, codesUsed)
  {
    var codes, gs := t.codes[g.code := t.codes[g.code].(consumedAt := Some(g.asked))], grants + [g];
    assert gs[|grants|] == g;
    forall id | id in codes && codes[id].consumedAt.Some? ensures Granted(gs, id) {
      if id != g.code {
        assert Granted(grants, id);
        var k :| 0 <= k < |grants| && grants[k].code == id;
        assert gs[k] == grants[k];
      }
    }
    hide Granted;
  }

  lemma ClaimedTokens(agents: map<nat, Agent>, grants: seq<Grant>, g: Grant, hostname: string)
    requires TokensInv(agents, grants)
    ensures TokensInv(agents[g.agent := Agent(Some(g.token), hostname)], grants + [g])
  {
    var gs := grants + [g];
    assert gs[|grants|] == g;
    forall a | a in agents && a != g.agent && agents[a].tokenHash.Some? ensures LastGrant(gs, a, agents[a].tokenHash.value) {
      assert LastGrant(grants, a, agents[a].tokenHash.value);
      var k :| 0 <= k < |grants| && grants[k].agent == a && grants[k].token == agents[a].tokenHash.value
        && forall j :: k < j < |grants| ==> grants[j].agent != a;
      assert gs[k] == grants[k];
    }
  }

  lemma ClaimedOps(codes: map<nat, Code>, grants: seq<Grant>, drawn: nat, codesUsed: set<nat>, ops: seq<Op>, i: nat,
                   g: Grant)
    requires OpsInv(codes, grants, drawn, codesUsed, ops) && i < |ops|
    requires ops[i].Claiming? && g.token == ops[i].token && g.code in codes
    ensures OpsInv(codes[g.code := codes[g.code].(consumedAt := Some(g.asked))], grants + [g], drawn, codesUsed, ops[i := Ended])
  {
    var after := codes[g.code := codes[g.code].(consumedAt := Some(g.asked))];
    var left := ops[i := Ended];
    forall j | 0 <= j < |left| ensures OpInv(after, grants + [g], drawn, codesUsed, left[j]) {
      assert OpInv(codes, grants, drawn, codesUsed, ops[j]);
    }
    assert OpInv(codes, grants, drawn, codesUsed, ops[i]);
    hide OpInv;
  }

  lemma AgentStepKeepsInv(s: State, a: Action)
    requires Inv(s) && Enabled(s, a) && (a.CreateAgent? || a.Unpair?)
    ensures Inv(Apply(s, a))
  {
    OpBegun(s.tables.codes, s.grants, s.drawn, s.codesUsed, s.ops, Issuing(a.agent, s.clock));
    hide GrantsInv, OpsInv, LastGrant;
  }

  lemma RemovalKeepsInv(s: State, a: Action)
    requires Inv(s) && Enabled(s, a) && (a.DeleteAgent? || a.Purge?)
    ensures Inv(Apply(s, a))
  {
    var left := Apply(s, a).tables.codes;
    FewerKeeps(s.tables.codes, left, s.grants, s.drawn, s.born, s.codesUsed, s.ops);
    hide GrantsInv, OpsInv, LastGrant;
  }

  lemma StepKeepsInv(s: State, a: Action)
    requires Inv(s) && Enabled(s, a)
    ensures Inv(Apply(s, a))
  {
    match a {
      case Issue(i, id, text, ttl) => IssueKeepsInv(s, i, id, text, ttl);
      case ReadCode(i) => ReadKeepsInv(s, i);
      case Claim(i, hostname) => ClaimKeepsInv(s, i, hostname);
      case CreateAgent(_) => AgentStepKeepsInv(s, a);
      case Unpair(_) => AgentStepKeepsInv(s, a);
      case DeleteAgent(_) => RemovalKeepsInv(s, a);
      case Purge(_) => RemovalKeepsInv(s, a);
      case Tick(_) =>
      case Regenerate(agent) => OpBegun(s.tables.codes, s.grants, s.drawn, s.codesUsed, s.ops, Checking(agent));
      case Redeem(text) => OpBegun(s.tables.codes, s.grants, s.drawn, s.codesUsed, s.ops, Reading(text, s.clock));
      case CheckUnpaired(i) => OpStep(s.tables.codes, s.grants, s.drawn, s.codesUsed, s.ops, i, Apply(s, a).ops[i]);
      case Drop(i) => OpStep(s.tables.codes, s.grants, s.drawn, s.codesUsed, s.ops, i, Ended);
    }
    hide CodesInv, GrantsInv, TokensInv, OpsInv;
  }

  lemma {:induction false} RunKeepsInv(s: State, run: seq<Action>)
    requires Inv(s) && Legal(s, run)
    ensures Inv(After(s, run))
    decreases |run|
  {
    hide Inv, Enabled, Apply;
    if run == [] {
    } else {
      RunKeepsInv(s, run[..|run| - 1]);
      StepKeepsInv(After(s, run[..|run| - 1]), run[|run| - 1]);
    }
  }

  // ---------------------------------------------------------------- what every run guarantees

  ghost predicate Reachable(run: seq<Action>, s: State) { Legal(Init(), run) && After(Init(), run) == s }

  lemma ReachableInv(run: seq<Action>, s: State)
    requires Reachable(run, s)
    ensures Inv(s)
  {
    hide Legal, After;
    RunKeepsInv(Init(), run);
  }

  /** Single use: no two redemptions of one code ever succeed, however they interleave. */
  lemma OneGrantPerCode(run: seq<Action>, s: State, j: nat, k: nat)
    requires Reachable(run, s) && j < k < |s.grants|
    ensures s.grants[j].code != s.grants[k].code
  {
    ReachableInv(run, s);
    hide Reachable, CodesInv, TokensInv, OpsInv;
  }

  /** One outstanding code: an agent never has two that could be redeemed. */
  lemma OneCodePerAgent(run: seq<Action>, s: State, i: nat, j: nat)
    requires Reachable(run, s) && i in s.tables.codes && j in s.tables.codes
    requires Outstanding(s.tables.codes[i], s.tables.codes[j].agent) && s.tables.codes[j].consumedAt.None?
    ensures i == j
  {
    ReachableInv(run, s);
    hide Reachable, GrantsInv, TokensInv, OpsInv;
  }

  /** A code on record is consumed exactly when a transaction has granted it, and that one wrote its agent's token. */
  lemma ConsumedIffGranted(run: seq<Action>, s: State, id: nat)
    requires Reachable(run, s) && id in s.tables.codes
    ensures s.tables.codes[id].consumedAt.Some? <==>
      exists k :: 0 <= k < |s.grants| && s.grants[k].code == id && s.grants[k].agent == s.tables.codes[id].agent
    ensures forall k :: 0 <= k < |s.grants| && s.grants[k].code == id ==> s.tables.codes[id].consumedAt == Some(s.grants[k].asked)
  {
    ReachableInv(run, s);
    hide Reachable, CodesInv, TokensInv, OpsInv;
    if s.tables.codes[id].consumedAt.Some? {
      assert Granted(s.grants, id);
    }
  }

  /** The token an agent holds is the one its latest grant handed out; nobody else was ever handed it. */
  lemma TokenIsTheLatest(run: seq<Action>, s: State, agent: nat)
    requires Reachable(run, s) && agent in s.tables.agents && s.tables.agents[agent].tokenHash.Some?
    ensures LastGrant(s.grants, agent, s.tables.agents[agent].tokenHash.value)
    ensures forall j, k :: 0 <= j < k < |s.grants| ==> s.grants[j].token != s.grants[k].token
  {
    ReachableInv(run, s);
    hide Reachable, CodesInv, OpsInv, LastGrant;
  }

  /** What is gone stays gone: no run grants a code that was replaced, purged or deleted with its agent. */
  lemma {:induction false} GoneNeverGrants(s: State, run: seq<Action>, id: nat)
    requires Inv(s) && Legal(s, run) && id in s.codesUsed && id !in s.tables.codes
    ensures var t := After(s, run);
      && id in t.codesUsed && id !in t.tables.codes && s.grants <= t.grants
      && forall k :: |s.grants| <= k < |t.grants| ==> t.grants[k].code != id
    decreases |run|
  {
    hide Inv, Enabled, Apply;
    if run == [] {
    } else {
      var before, a := After(s, run[..|run| - 1]), run[|run| - 1];
      GoneNeverGrants(s, run[..|run| - 1], id);
      RunKeepsInv(s, run[..|run| - 1]);
      StepLeavesGone(before, a, id);
    }
  }

  lemma StepLeavesGone(s: State, a: Action, id: nat)
    requires Enabled(s, a) && id in s.codesUsed && id !in s.tables.codes
    ensures var t := Apply(s, a);
      && id in t.codesUsed && id !in t.tables.codes
      && (t.grants == s.grants || (|t.grants| == |s.grants| + 1 && t.grants[..|s.grants|] == s.grants && t.grants[|s.grants|].code != id))
  {
    hide TextFree, HasText, Read;
  }

  /**
   A reissue replaces: of the codes an agent had outstanding none can ever be granted afterwards, not even to a
   redeemer that read it before and is about to claim it.
   */
  lemma ReplacedNeverGrants(s: State, i: nat, id: nat, text: string, ttl: nat, run: seq<Action>, replaced: nat)
    requires Inv(s) && Enabled(s, Issue(i, id, text, ttl)) && Issues(s.tables, s.ops[i].agent, text)
    requires replaced in s.tables.codes && Outstanding(s.tables.codes[replaced], s.ops[i].agent)
    requires Legal(Apply(s, Issue(i, id, text, ttl)), run)
    ensures var t := After(Apply(s, Issue(i, id, text, ttl)), run);
      && |s.grants| <= |t.grants| && forall k :: 0 <= k < |t.grants| ==> t.grants[k].code != replaced
  {
    var next := Apply(s, Issue(i, id, text, ttl));
    assert replaced in s.codesUsed && replaced !in next.tables.codes && next.grants == s.grants;
    assert forall k :: 0 <= k < |s.grants| ==> s.grants[k].code != replaced;
    StepKeepsInv(s, Issue(i, id, text, ttl));
    hide Inv, Apply, Enabled, Legal;
    GoneNeverGrants(next, run, replaced);
    GrantsOnlyGrow(next, run);
  }

  lemma {:induction false} GrantsOnlyGrow(s: State, run: seq<Action>)
    requires Legal(s, run)
    ensures s.grants <= After(s, run).grants
    decreases |run|
  {
    if run == [] {
    } else {
      GrantsOnlyGrow(s, run[..|run| - 1]);
    }
  }

  /**
   A purge takes nothing from anyone: whoever asks from then on finds the same codes redeemable, and consumed ones
   stay.
   */
  lemma PurgeTakesOnlyTheLapsed(t: Tables, now: int, id: nat, asked: int)
    requires now <= asked
    ensures Claimable(Purged(t, now), id, asked) <==> Claimable(t, id, asked)
    ensures id in t.codes && t.codes[id].consumedAt.Some? ==> id in Purged(t, now).codes && Purged(t, now).codes[id] == t.codes[id]
  {
  }

  /** Revoked means revoked: an agent without a token has one again only once a later grant names it. */
  lemma {:induction false} RevokedUntilPairedAgain(s: State, run: seq<Action>, agent: nat)
    requires Inv(s) && Legal(s, run) && agent in s.agentsUsed
    requires agent in s.tables.agents ==> s.tables.agents[agent].tokenHash.None?
    ensures var t := After(s, run);
      agent in t.agentsUsed && s.grants <= t.grants
    ensures var t := After(s, run);
      agent in t.tables.agents && t.tables.agents[agent].tokenHash.Some? ==>
        exists k :: |s.grants| <= k < |t.grants| && t.grants[k].agent == agent
    decreases |run|
  {
    hide Inv, Enabled, Apply;
    if run == [] {
    } else {
      var before, a := After(s, run[..|run| - 1]), run[|run| - 1];
      RevokedUntilPairedAgain(s, run[..|run| - 1], agent);
      if !(agent in before.tables.agents && before.tables.agents[agent].tokenHash.Some?) {
        StepPairsOnlyByGrant(before, a, agent);
      }
      UsedStaysUsed(before, a, agent);
    }
  }

  lemma UsedStaysUsed(s: State, a: Action, agent: nat)
    requires Enabled(s, a) && agent in s.agentsUsed
    ensures agent in Apply(s, a).agentsUsed && s.grants <= Apply(s, a).grants
  {
    hide TextFree, HasText, Read, Claimable;
  }

  lemma StepPairsOnlyByGrant(s: State, a: Action, agent: nat)
    requires Enabled(s, a) && agent in s.agentsUsed
    requires agent in s.tables.agents ==> s.tables.agents[agent].tokenHash.None?
    ensures var t := Apply(s, a);
      && agent in t.agentsUsed && s.grants <= t.grants
      && (agent in t.tables.agents && t.tables.agents[agent].tokenHash.Some? ==>
            |t.grants| == |s.grants| + 1 && t.grants[|s.grants|].agent == agent)
  {
    hide TextFree, HasText, Read;
  }

  // ---------------------------------------------------------------- all that a step does, code by code, agent by agent

  /** An issue commits unless the agent is gone or the text is in use, other than by a code it replaces. */
  predicate Commits(t: Tables, agent: nat, text: string) {
    && agent in t.agents
    && forall j :: j in t.codes && t.codes[j].text == text ==> t.codes[j].agent == agent && t.codes[j].consumedAt.None?
  }

  predicate Takes(s: State, a: Action, id: nat)
    requires Enabled(s, a) && id in s.tables.codes
  {
    var c := s.tables.codes[id];
    match a
    case Issue(i, _, text, _) =>
      Commits(s.tables, s.ops[i].agent, text) && c.agent == s.ops[i].agent && c.consumedAt.None?
    case Purge(now) => c.consumedAt.None? && c.expiresAt <= now
    case DeleteAgent(agent) => c.agent == agent
    case _ => false
  }

  /** A redemption commits against this code: neither consumed, nor lapsed when its redeemer began. */
  predicate Consumes(s: State, a: Action, id: nat)
    requires Enabled(s, a)
  {
    && a.Claim? && s.ops[a.i].id == id && id in s.tables.codes
    && s.tables.codes[id].consumedAt.None? && s.tables.codes[id].expiresAt > s.ops[a.i].asked
  }

  /**
   Which step takes a code away, changes one or adds one, and what it then is: a code goes only with an issue to its own
   agent, a purge after it lapsed, or its agent; and every other code is as it was.
   */
  lemma StepsByCode(run: seq<Action>, s: State, a: Action, id: nat)
    requires Reachable(run, s) && Enabled(s, a)
    ensures var codes, later := s.tables.codes, Apply(s, a).tables.codes;
      && (id in codes ==> (id !in later <==> Takes(s, a, id)))
      && (id in codes && id in later && Consumes(s, a, id) ==>
            later[id] == codes[id].(consumedAt := Some(s.ops[a.i].asked)))
      && (id in codes && id in later && !Consumes(s, a, id) ==> later[id] == codes[id])
      && (id !in codes ==> (id in later <==> a.Issue? && a.id == id && Commits(s.tables, s.ops[a.i].agent, a.text)))
      && (id !in codes && id in later ==> later[id] == Code(s.ops[a.i].agent, a.text, s.ops[a.i].asked + a.ttl, None))
  {
    ReachableInv(run, s);
    hide Reachable, GrantsInv, TokensInv, Read, HasText;
    if a.Issue? {
      CommitsIs(s.tables, s.ops[a.i].agent, a.text);
    } else if a.Claim? {
      assert OpInv(s.tables.codes, s.grants, s.drawn, s.codesUsed, s.ops[a.i]);
    }
    hide OpsInv;
  }

  lemma CommitsIs(t: Tables, agent: nat, text: string)
    ensures Commits(t, agent, text) <==> Issues(t, agent, text)
  {
    var left := WithoutOutstanding(t.codes, agent);
    if Issues(t, agent, text) {
      forall j | j in t.codes && t.codes[j].text == text ensures t.codes[j].agent == agent && t.codes[j].consumedAt.None? {
        assert j !in left;
      }
    }
  }

  /** What a step leaves of an agent still there: only a grant gives it a token, only unpairing takes it. */
  function Touched(s: State, a: Action, agent: nat): Agent
    requires Enabled(s, a) && (agent in s.tables.agents || a == CreateAgent(agent))
  {
    if a == CreateAgent(agent) then Agent(None, "")
    else if a == Unpair(agent) then s.tables.agents[agent].(tokenHash := None)
    else if a.Claim? && Consumes(s, a, s.ops[a.i].id) && s.ops[a.i].agent == agent
      then Agent(Some(s.ops[a.i].token), a.hostname)
    else s.tables.agents[agent]
  }

  /** And which step adds an agent, removes it, or touches its token. */
  lemma StepsByAgent(run: seq<Action>, s: State, a: Action, agent: nat)
    requires Reachable(run, s) && Enabled(s, a)
    ensures var agents, later := s.tables.agents, Apply(s, a).tables.agents;
      && (agent in later <==> (agent in agents && a != DeleteAgent(agent)) || a == CreateAgent(agent))
      && (agent in later ==> later[agent] == Touched(s, a, agent))
  {
    ReachableInv(run, s);
    hide Reachable, GrantsInv, TokensInv, Read, HasText;
    if a.Claim? {
      assert OpInv(s.tables.codes, s.grants, s.drawn, s.codesUsed, s.ops[a.i]);
    }
    hide OpsInv;
  }

  predicate Names(a: Action, j: nat) {
    match a
    case CheckUnpaired(i) => i == j
    case Issue(i, _, _, _) => i == j
    case ReadCode(i) => i == j
    case Claim(i, _) => i == j
    case Drop(i) => i == j
    case _ => false
  }

  /** No step moves another's operation. */
  lemma StepsByOp(s: State, a: Action, j: nat)
    requires Enabled(s, a) && j < |s.ops| && !Names(a, j)
    ensures j < |Apply(s, a).ops| && Apply(s, a).ops[j] == s.ops[j]
  {
    hide Read, HasText, TextFree, Claimable;
  }

  ghost predicate WasUnpaired(s: State, agent: nat, asked: int) {
    agent in s.tables.agents && s.tables.agents[agent].tokenHash.None? && s.clock == asked
  }

  /** Whoever is about to issue a code found the agent there and without a token, at the moment the code dates from. */
  lemma {:induction false} IssuesWereAllowed(run: seq<Action>, i: nat) returns (k: nat)
    requires Legal(Init(), run) && i < |After(Init(), run).ops| && After(Init(), run).ops[i].Issuing?
    ensures k <= |run| && Legal(Init(), run[..k])
    ensures var op := After(Init(), run).ops[i]; WasUnpaired(After(Init(), run[..k]), op.agent, op.asked)
    decreases |run|
  {
    var before, a := run[..|run| - 1], run[|run| - 1];
    var s, t := After(Init(), before), After(Init(), run);
    IssuingStep(s, a, i);
    hide Legal, Apply, Enabled, WasUnpaired;
    if i < |s.ops| && s.ops[i] == t.ops[i] {
      k := IssuesWereAllowed(before, i);
      assert run[..k] == before[..k];
    } else if a.CheckUnpaired? {
      k := |before|;
    } else {
      k := |run|;
      assert run[..k] == run;
    }
  }

  lemma IssuingStep(s: State, a: Action, i: nat)
    requires Enabled(s, a) && i < |Apply(s, a).ops| && Apply(s, a).ops[i].Issuing?
    ensures var t, op := Apply(s, a), Apply(s, a).ops[i];
      || (i < |s.ops| && s.ops[i] == op)
      || WasUnpaired(if a.CheckUnpaired? then s else t, op.agent, op.asked)
  {
    hide HasText, TextFree, Claimable;
  }

  /** Whoever is about to read brought this text, at the moment it is to be judged by. */
  lemma {:induction false} ReadersAsked(run: seq<Action>, i: nat) returns (k: nat)
    requires Legal(Init(), run) && i < |After(Init(), run).ops| && After(Init(), run).ops[i].Reading?
    ensures k < |run| && Legal(Init(), run[..k])
    ensures var op := After(Init(), run).ops[i]; run[k] == Redeem(op.text) && After(Init(), run[..k]).clock == op.asked
    decreases |run|
  {
    var before, a := run[..|run| - 1], run[|run| - 1];
    var s, t := After(Init(), before), After(Init(), run);
    OpComesFrom(s, a, i);
    hide Legal, Apply, Enabled;
    if i < |s.ops| && s.ops[i] == t.ops[i] {
      k := ReadersAsked(before, i);
      assert run[..k] == before[..k] && run[k] == before[k];
    } else {
      k := |before|;
    }
  }

  /** The code an operation is about to claim, as it has to have been when it was read. */
  predicate IsLive(t: Tables, op: Op, text: string)
    requires op.Claiming?
  {
    && op.id in t.codes && t.codes[op.id].text == text && t.codes[op.id].agent == op.agent
    && t.codes[op.id].consumedAt.None? && t.codes[op.id].expiresAt > op.asked
  }

  /** Whoever is about to claim a code found it, under the text it brought, neither consumed nor lapsed when it began. */
  lemma {:induction false} ClaimersRead(run: seq<Action>, i: nat) returns (k: nat, j: nat)
    requires Legal(Init(), run) && i < |After(Init(), run).ops| && After(Init(), run).ops[i].Claiming?
    ensures k < j < |run| && run[k].Redeem? && Legal(Init(), run[..k]) && Legal(Init(), run[..j])
    ensures var op := After(Init(), run).ops[i];
      After(Init(), run[..k]).clock == op.asked && IsLive(After(Init(), run[..j]).tables, op, run[k].text)
    decreases |run|
  {
    var before, a := run[..|run| - 1], run[|run| - 1];
    var s, t := After(Init(), before), After(Init(), run);
    OpComesFrom(s, a, i);
    hide Legal, Apply, Enabled, IsLive;
    if i < |s.ops| && s.ops[i] == t.ops[i] {
      k, j := ClaimersRead(before, i);
      assert run[..k] == before[..k] && run[k] == before[k] && run[..j] == before[..j];
    } else {
      k := ReadersAsked(before, i);
      j := |before|;
      assert run[..k] == before[..k] && run[k] == before[k];
    }
  }

  /** Where an operation at its reading or its claim came from. */
  lemma OpComesFrom(s: State, a: Action, i: nat)
    requires Enabled(s, a) && i < |Apply(s, a).ops|
    ensures var op := Apply(s, a).ops[i];
      && (op.Reading? ==> (i < |s.ops| && s.ops[i] == op) || (a == Redeem(op.text) && s.clock == op.asked))
      && (op.Claiming? ==>
            || (i < |s.ops| && s.ops[i] == op)
            || (i < |s.ops| && s.ops[i].Reading? && s.ops[i].asked == op.asked && IsLive(s.tables, op, s.ops[i].text)))
  {
    hide TextFree, Claimable;
  }

  // ---------------------------------------------------------------- where the code and its comments part

  /**
   The claim compares the expiry with the moment the redeemer began, which the read already did: for a code still
   there and not consumed the second comparison can never refuse.
   */
  lemma ExpiryIsNotCheckedAgain(run: seq<Action>, s: State, i: nat)
    requires Reachable(run, s) && i < |s.ops| && s.ops[i].Claiming?
    ensures var op := s.ops[i];
      Claimable(s.tables, op.id, op.asked) <==> op.id in s.tables.codes && s.tables.codes[op.id].consumedAt.None?
  {
    ReachableInv(run, s);
    hide Reachable, CodesInv, GrantsInv, TokensInv;
    assert OpInv(s.tables.codes, s.grants, s.drawn, s.codesUsed, s.ops[i]);
  }

  /** And a code still there has its agent: the branch for an agent deleted mid-redemption is never taken. */
  lemma AgentIsNeverMissing(run: seq<Action>, s: State, i: nat)
    requires Reachable(run, s) && i < |s.ops| && s.ops[i].Claiming? && Claimable(s.tables, s.ops[i].id, s.ops[i].asked)
    ensures s.ops[i].agent in s.tables.agents
  {
    ReachableInv(run, s);
    hide Reachable, GrantsInv, TokensInv;
    assert OpInv(s.tables.codes, s.grants, s.drawn, s.codesUsed, s.ops[i]);
  }

  /** Every grant answers a redeemer that began before its code expired. */
  lemma GrantsBeganInTime(run: seq<Action>, s: State, k: nat)
    requires Reachable(run, s) && k < |s.grants|
    ensures s.grants[k].asked < s.grants[k].expiresAt
  {
    ReachableInv(run, s);
    hide Reachable, CodesInv, TokensInv, OpsInv;
  }

  /** Right after a grant its agent has no code outstanding, and one that is outstanding was issued later. */
  lemma OutstandingIsNewer(run: seq<Action>, s: State, id: nat, k: nat)
    requires Reachable(run, s) && id in s.tables.codes && s.tables.codes[id].consumedAt.None?
    requires k < |s.grants| && s.grants[k].agent == s.tables.codes[id].agent
    ensures id in s.born && k < s.born[id]
  {
    ReachableInv(run, s);
    hide Reachable, CodesInv, TokensInv, OpsInv;
  }

  lemma Then(run: seq<Action>, s: State, a: Action) returns (longer: seq<Action>, t: State)
    requires Reachable(run, s) && Enabled(s, a)
    ensures longer == run + [a] && t == Apply(s, a) && Reachable(longer, t)
  {
    hide Enabled, Apply;
    longer, t := run + [a], Apply(s, a);
    assert longer[..|longer| - 1] == run;
  }

  lemma ReadFinds(s: State, text: string, asked: int, id: nat)
    requires id in s.tables.codes && s.tables.codes[id].text == text
    requires forall j :: j in s.tables.codes ==> j == id
    requires s.tables.codes[id].consumedAt.None? && s.tables.codes[id].expiresAt > asked
    ensures Read(s, text, asked) == Claiming(id, s.tables.codes[id].agent, asked, s.drawn)
  {
    assert HasText(s.tables.codes, text);
  }

  /** An agent created at 0, with a code that expires at 10. */
  lemma FirstCode() returns (run: seq<Action>, s: State)
    ensures Reachable(run, s)
    ensures s == State(Tables(map[1 := Agent(None, "")], map[7 := Code(1, "c", 10, None)]), [Ended], 0, [], 0, map[7 := 0], {7}, {1})
  {
    run, s := [], Init();
    run, s := Then(run, s, CreateAgent(1));
    assert s.tables.codes == map[];
    run, s := Then(run, s, Issue(0, 7, "c", 10));
    assert WithoutOutstanding(map[], 1) == map[];
    assert s.codesUsed == {7};
  }

  /** Twelve moments late: a redeemer that read the code before it lapsed claims it after, and is granted. */
  lemma GrantedAfterExpiry() returns (run: seq<Action>, s: State)
    ensures Reachable(run, s) && |s.grants| == 1
    ensures s.grants[0].asked < s.grants[0].expiresAt < s.grants[0].committed
  {
    run, s := FirstCode();
    hide Reachable, Read;
    run, s := Then(run, s, Redeem("c"));
    ReadFinds(s, "c", 0, 7);
    run, s := Then(run, s, ReadCode(1));
    run, s := Then(run, s, Tick(22));
    run, s := Then(run, s, Claim(1, "till"));
  }

  /** An agent with a token and a code that would pair another machine in its place. */
  ghost predicate PairedAndOpen(t: Tables, agent: nat) {
    && agent in t.agents && t.agents[agent].tokenHash.Some?
    && exists id :: id in t.codes && Outstanding(t.codes[id], agent)
  }

  /**
   A reissue is refused to a paired agent, so that it never has a live code. Exactly one thing breaks that: a reissue
   that passed its check, and whose transaction commits while the agent is paired.
   */
  lemma OpensOnlyByLateIssue(run: seq<Action>, s: State, a: Action, agent: nat)
    requires Reachable(run, s) && Enabled(s, a) && !PairedAndOpen(s.tables, agent)
    ensures PairedAndOpen(Apply(s, a).tables, agent) <==>
      && a.Issue? && s.ops[a.i].agent == agent && Issues(s.tables, agent, a.text)
      && s.tables.agents[agent].tokenHash.Some?
  {
    ReachableInv(run, s);
    hide Reachable, GrantsInv, TokensInv, OpsInv;
    match a {
      case Issue(i, id, text, ttl) => IssueOpens(s, i, id, text, ttl, agent);
      case Claim(i, hostname) => ClaimCloses(s, i, hostname, agent);
      case _ =>
        hide Read, CodesInv, TextFree;
        assert forall id :: id in Apply(s, a).tables.codes ==>
          id in s.tables.codes && Apply(s, a).tables.codes[id] == s.tables.codes[id];
    }
  }

  lemma IssueOpens(s: State, i: nat, id: nat, text: string, ttl: nat, agent: nat)
    requires Enabled(s, Issue(i, id, text, ttl)) && !PairedAndOpen(s.tables, agent)
    ensures PairedAndOpen(Apply(s, Issue(i, id, text, ttl)).tables, agent) <==>
      s.ops[i].agent == agent && Issues(s.tables, agent, text) && s.tables.agents[agent].tokenHash.Some?
  {
    hide TextFree;
    var t := Apply(s, Issue(i, id, text, ttl)).tables;
    if Issues(s.tables, s.ops[i].agent, text) && s.ops[i].agent == agent {
      assert id in t.codes && Outstanding(t.codes[id], agent);
    }
  }

  /** A grant consumes the only code its agent had. */
  lemma ClaimCloses(s: State, i: nat, hostname: string, agent: nat)
    requires Inv(s) && Enabled(s, Claim(i, hostname)) && !PairedAndOpen(s.tables, agent)
    ensures !PairedAndOpen(Apply(s, Claim(i, hostname)).tables, agent)
  {
    hide GrantsInv, TokensInv;
    assert OpInv(s.tables.codes, s.grants, s.drawn, s.codesUsed, s.ops[i]);
    hide OpsInv;
  }

  /** A reissue that checked before the agent paired, and issues after: the paired agent has a code outstanding. */
  lemma PairedWithACodeOutstanding() returns (run: seq<Action>, s: State)
    ensures Reachable(run, s)
    ensures PairedAndOpen(s.tables, 1)
  {
    run, s := FirstCode();
    hide Reachable, Read;
    run, s := Then(run, s, Regenerate(1));
    run, s := Then(run, s, CheckUnpaired(1));
    run, s := Then(run, s, Redeem("c"));
    ReadFinds(s, "c", 0, 7);
    run, s := Then(run, s, ReadCode(2));
    run, s := Then(run, s, Claim(2, "till"));
    assert TextFree(WithoutOutstanding(s.tables.codes, 1), "d");
    run, s := Then(run, s, Issue(1, 8, "d", 10));
    assert 8 in s.tables.codes && Outstanding(s.tables.codes[8], 1);
  }

  // ---------------------------------------------------------------- the transactions, statement by statement

  datatype Failure = Unknown | Expired | Consumed

  datatype Sought = Live(id: nat, agent: nat) | NotLive(failure: Failure)

  datatype Redemption = Paired(agent: nat, token: nat) | NotPaired(failure: Failure)

  /** What a read of the codes leads a redeemer to. */
  ghost predicate Answers(t: Tables, text: string, now: int, r: Sought) {
    if !HasText(t.codes, text) then r == NotLive(Unknown)
    else
      exists id :: id in t.codes && t.codes[id].text == text
        && r == if t.codes[id].consumedAt.Some? then NotLive(Consumed)
                else if t.codes[id].expiresAt <= now then NotLive(Expired)
                else Live(id, t.codes[id].agent)
  }

  /** The machine's read is the method's: texts are unique, so there is only one answer. */
  lemma ReadIsAnswer(s: State, text: string, asked: int, r: Sought)
    requires Inv(s) && Answers(s.tables, text, asked, r)
    ensures Read(s, text, asked) == if r.Live? then Claiming(r.id, r.agent, asked, s.drawn) else Ended
  {
    hide GrantsInv, TokensInv, OpsInv;
  }

  /** A code's text, agent and expiry never change, and consumed it stays. */
  predicate SameCode(c: Code, d: Code) {
    && d.text == c.text && d.agent == c.agent && d.expiresAt == c.expiresAt
    && (c.consumedAt.Some? ==> d.consumedAt == c.consumedAt)
  }

  class Database {
    var agents: map<nat, Agent>
    var codes: map<nat, Code>
    /** The ids handed out to codes; the generator does not repeat itself. */
    var used: set<nat>

    ghost predicate Valid()
      reads this
    {
      codes.Keys <= used
    }

    function Contents(): Tables
      reads this
    {
      Tables(agents, codes)
    }

    constructor ()
      ensures Valid() && Contents() == Init().tables
    {
      agents, codes, used := map[], map[], {};
    }

    /** The two statements of `issuePairingCode`, rolled back together when the insert breaks a constraint. */
    method IssuePairingCode(agent: nat, id: nat, text: string, now: int, ttl: nat) returns (issued: bool)
      requires id !in used && Valid()
      modifies this
      ensures Valid() && used == old(used) + {id}
      ensures issued <==> Commits(old(Contents()), agent, text)
      ensures agents == old(agents) && (id in codes <==> issued)
      ensures issued ==> codes[id] == Code(agent, text, now + ttl, None)
      ensures forall i :: i in old(codes) ==>
        (i !in codes <==> issued && old(codes)[i].agent == agent && old(codes)[i].consumedAt.None?)
      ensures forall i :: i in codes && i != id ==> i in old(codes) && codes[i] == old(codes)[i]
      ensures Contents() == if issued
        then Issued(old(Contents()), agent, id, Code(agent, text, now + ttl, None)) else old(Contents())
    {
      var rollback := codes;
      CommitsIs(Contents(), agent, text);
      used := used + {id};
      codes := map i | i in codes && !(codes[i].agent == agent && codes[i].consumedAt.None?) :: codes[i];
      assert codes == WithoutOutstanding(rollback, agent);
      issued := agent in agents && forall i :: i in codes ==> codes[i].text != text;
      codes := if issued then codes[id := Code(agent, text, now + ttl, None)] else rollback;
    }

    /** The read a redemption begins with. */
    method FindCode(text: string, now: int) returns (r: Sought)
      ensures Answers(Contents(), text, now, r)
    {
      if forall i :: i in codes ==> codes[i].text != text {
        return NotLive(Unknown);
      }
      var id :| id in codes && codes[id].text == text;
      if codes[id].consumedAt.Some? {
        return NotLive(Consumed);
      }
      if codes[id].expiresAt <= now {
        return NotLive(Expired);
      }
      r := Live(id, codes[id].agent);
    }

    /** The redeeming transaction: a conditional update and the agent's, or neither. */
    method ClaimCode(id: nat, agent: nat, now: int, token: nat, hostname: string) returns (r: Redemption)
      modifies this
      ensures used == old(used)
      ensures r == if id !in old(codes) || old(codes)[id].consumedAt.Some? || old(codes)[id].expiresAt <= now
        then NotPaired(Consumed) else if agent !in old(agents) then NotPaired(Unknown) else Paired(agent, token)
      ensures r.Paired? ==> id in codes && codes[id].consumedAt == Some(now) && SameCode(old(codes)[id], codes[id])
      ensures r.Paired? ==> agent in agents && agents[agent] == Agent(Some(token), hostname)
      ensures agents.Keys == old(agents).Keys && codes.Keys == old(codes).Keys
      ensures forall a :: a in agents && (r.NotPaired? || a != agent) ==> agents[a] == old(agents)[a]
      ensures forall i :: i in codes && (r.NotPaired? || i != id) ==> codes[i] == old(codes)[i]
      ensures Contents() == if r.Paired? then ClaimedBy(old(Contents()), id, agent, now, token, hostname) else old(Contents())
    {
      var rollback := codes;
      var count := 0;
      if id in codes && codes[id].consumedAt.None? && codes[id].expiresAt > now {
        codes := codes[id := codes[id].(consumedAt := Some(now))];
        count := 1;
      }
      if count != 1 {
        return NotPaired(Consumed);
      }
      if agent !in agents {
        codes := rollback;
        return NotPaired(Unknown);
      }
      agents := agents[agent := Agent(Some(token), hostname)];
      r := Paired(agent, token);
    }

    /** One `deleteMany`: what lapsed unconsumed is gone, everything else is as it was, and the count is of what went. */
    method PurgeExpired(now: int) returns (count: nat)
      modifies this
      ensures agents == old(agents) && forall id :: id in codes ==> id in old(codes) && codes[id] == old(codes)[id]
      ensures forall id :: id in old(codes) ==>
        (id !in codes <==> old(codes)[id].consumedAt.None? && old(codes)[id].expiresAt <= now)
      ensures count == |set id | id in old(codes) && id !in codes|
      ensures used == old(used) && Contents() == Purged(old(Contents()), now)
    {
      ghost var before := codes;
      var lapsed := set id | id in codes && codes[id].consumedAt.None? && codes[id].expiresAt <= now;
      codes := codes - lapsed;
      count := |lapsed|;
      assert lapsed == set id | id in before && id !in codes;
    }

    /** Revokes the credential; the code that follows is a transaction of its own. */
    method Unpair(agent: nat) returns (known: bool)
      modifies this
      ensures used == old(used) && (known <==> agent in old(agents))
      ensures codes == old(codes) && agents.Keys == old(agents).Keys
      ensures known ==> agents[agent].tokenHash.None? && agents[agent].hostname == old(agents)[agent].hostname
      ensures forall a :: a in agents && a != agent ==> agents[a] == old(agents)[a]
      ensures Contents() == if known then Unpaired(old(Contents()), agent) else old(Contents())
    {
      known := agent in agents;
      if known {
        agents := agents[agent := agents[agent].(tokenHash := None)];
      }
    }

    /** The agent goes, and by cascade every code of its; every other agent and code is as it was. */
    method DeleteAgent(agent: nat) returns (known: bool)
      modifies this
      ensures known <==> agent in old(agents)
      ensures agent !in agents && forall a :: a != agent ==> (a in agents <==> a in old(agents))
      ensures forall a :: a in agents ==> agents[a] == old(agents)[a]
      ensures known ==> forall id :: id in codes ==> codes[id].agent != agent
      ensures forall id :: id in old(codes) && (!known || old(codes)[id].agent != agent) ==> id in codes
      ensures forall id :: id in codes ==> id in old(codes) && codes[id] == old(codes)[id]
      ensures used == old(used) && (known ==> Contents() == Deleted(old(Contents()), agent))
    {
      known := agent in agents;
      if known {
        agents := agents - {agent};
        codes := map i | i in codes && codes[i].agent != agent :: codes[i];
      }
    }

    /** Whatever other operators and redeemers commit while a redemption awaits. */
    method Others()
      requires Valid()
      modifies this
      ensures Valid() && old(used) <= used
      ensures forall id :: id in codes && id in old(used) ==> id in old(codes) && SameCode(old(codes)[id], codes[id])
    {
      hide Purged, Deleted, Issued, ClaimedBy, Unpaired, Issues, TextFree;
      var n: int := *;
      while n > 0
        invariant Valid() && old(used) <= used
        invariant forall id :: id in codes && id in old(used) ==> id in old(codes) && SameCode(old(codes)[id], codes[id])
      {
        n := n - 1;
        Another();
      }
    }

    method Another()
      requires Valid()
      modifies this
      ensures Valid() && old(used) <= used
      ensures forall id :: id in codes && id in old(used) ==> id in old(codes) && SameCode(old(codes)[id], codes[id])
    {
      hide TextFree;
      var which: int, agent: nat, id: nat, token: nat, now: int, ttl: nat, text: string := *, *, *, *, *, *, *;
      if which == 0 && id !in used {
        var _ := IssuePairingCode(agent, id, text, now, ttl);
      } else if which == 1 {
        var _ := ClaimCode(id, agent, now, token, text);
      } else if which == 2 {
        var _ := PurgeExpired(now);
      } else if which == 3 {
        var _ := Unpair(agent);
      } else if which == 4 {
        var _ := DeleteAgent(agent);
      }
    }

    /**
     `redeemPairingCode`, with anything committed between its read and its transaction, which leaves `before`. Success
     means a code of that text was live when it was read, and that it, and the token of the agent it was issued to, now
     record this redemption; it fails exactly when the read finds nothing live or the transaction finds the code taken,
     gone or without its agent, and then changes nothing.
     */
    method RedeemPairingCode(text: string, now: int, token: nat, hostname: string)
      returns (r: Redemption, ghost sought: Sought, ghost before: Tables)
      requires Valid()
      modifies this
      ensures Valid() && Answers(old(Contents()), text, now, sought)
      ensures sought.NotLive? ==> r == NotPaired(sought.failure) && Contents() == before == old(Contents())
      ensures sought.Live? ==>
        && (r.Paired? <==> Claimable(before, sought.id, now) && sought.agent in before.agents)
        && Contents() == if r.Paired? then ClaimedBy(before, sought.id, sought.agent, now, token, hostname) else before
      ensures r.Paired? ==>
        && r.token == token && r.agent in agents && agents[r.agent] == Agent(Some(token), hostname)
        && exists id :: Claimable(old(Contents()), id, now) && id in codes
             && old(codes)[id].text == text == codes[id].text && old(codes)[id].agent == r.agent
             && codes[id].consumedAt == Some(now)
    {
      var found := FindCode(text, now);
      sought, before := found, Contents();
      if found.NotLive? {
        return NotPaired(found.failure), sought, before;
      }
      Others();
      before := Contents();
      r := ClaimCode(found.id, found.agent, now, token, hostname);
    }
  }
}
