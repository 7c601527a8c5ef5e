/**
 Whose proposals count.  Whatever happens in a run, an honest node takes up a proposal only while the
 proposer it names is that node's leader, and the leader is the member whose turn it is.
 */
module ConsensusLeaders {
  import opened Options
  import opened Consensus
  import opened ConsensusSafety
  import opened ConsensusContent

  // ----- one call -----

  /**
   A proposal is taken up if it is identified, holds an order and names the node's leader, and is
   answered by a prevote; any other one changes nothing and is not answered.
   */
  lemma OnlyTheLeaderIsHeard(st: NodeState, p: Proposal)
    ensures var e := OnProposal(st, p);
            if p.id != "" && p.order.Some? && p.leaderId == st.leader then
              e.sent != [] && e.sent[0] == Vote(p.id, st.localId, Prevote, true)
              && p.id in e.st.proposals
              && (if p.id in st.proposals then e.st.proposals[p.id].proposal == st.proposals[p.id].proposal
                  else e.st.proposals[p.id].proposal == p)
              && st.localId in TallyOf(e.st.prevotes, p.id)
            else
              e == Effect(st, [], None)
  {
  }

  // ----- runs -----

  /** At step `i` the node is handed this proposal, which names the node's leader of that moment. */
  predicate LeaderDelivers(nets: seq<Net>, events: seq<Event>, j: string, p: Proposal, i: nat)
    requires i < |nets| && i < |events|
  {
    events[i] == DeliverProposal(j, p) && j in nets[i].nodes
    && p.id != "" && p.order.Some? && p.leaderId == nets[i].nodes[j].leader
  }

  /** At step `i` the node, being leader, proposes this itself. */
  predicate LeaderProposes(nets: seq<Net>, events: seq<Event>, j: string, p: Proposal, i: nat)
    requires i < |nets| && i < |events|
  {
    events[i].Propose? && events[i].node == j && p == events[i].proposal.(leaderId := j)
    && j in nets[i].nodes && nets[i].nodes[j].leader == j
  }

  /** What a node has validated is what its leaders of the time delivered, no more and no less. */
  lemma ValidatedFromLeader(c: Config, nets: seq<Net>, events: seq<Event>, j: string, p: Proposal, t: nat)
    requires IsRun(c, nets, events) && t <= |events|
    ensures (j, p) in nets[t].validated <==> exists i: nat :: i < t && LeaderDelivers(nets, events, j, p, i)
  {
    ValidationsAreDeliveries(c, nets, events, j, p, t);
    if (j, p) in nets[t].validated {
      var i: nat :| i < t && events[i] == DeliverProposal(j, p) && j in nets[i].nodes
                    && p.id != "" && p.order.Some? && p.leaderId == nets[i].nodes[j].leader;
      assert LeaderDelivers(nets, events, j, p, i);
    }
  }

  /** Everything brought in a run is what it brings; so the invariant of contents holds. */
  lemma ContentHolds(c: Config, nets: seq<Net>, events: seq<Event>, t: nat)
    requires ValidConfig(c) && IsRun(c, nets, events) && t <= |events|
    ensures ContentInv(c, AllBrought(events), nets[t])
  {
    assert forall i :: 0 <= i < |events| ==> Brings(events[i], AllBrought(events));
    RunKeepsContent(c, nets, events, AllBrought(events), t);
  }

  lemma AcceptanceIsPrevoted(net: Net, j: string, p: Proposal)
    requires j in net.nodes && net.nodes[j].localId == j
    requires p.id != "" && p.order.Some? && p.leaderId == net.nodes[j].leader
    ensures (j, p.id) in Step(net, DeliverProposal(j, p)).prevoted
  {
    OnlyTheLeaderIsHeard(net.nodes[j], p);
    assert Vote(p.id, j, Prevote, true) in OnProposal(net.nodes[j], p).sent;
  }

  lemma {:induction false} PrevotesLast(
    c: Config, nets: seq<Net>, events: seq<Event>, j: string, id: string, i: nat, t: nat)
    requires IsRun(c, nets, events) && i <= t <= |events| && (j, id) in nets[i].prevoted
    ensures (j, id) in nets[t].prevoted
  {
    if i < t {
      PrevotesLast(c, nets, events, j, id, i, t - 1);
      assert nets[t - 1 + 1] == Step(nets[t - 1], events[t - 1]);
    }
  }

  /** A node has prevoted an ID if and only if its leader of the time delivered a proposal under it. */
  lemma PrevotedForLeader(c: Config, nets: seq<Net>, events: seq<Event>, j: string, id: string, t: nat)
    requires ValidConfig(c) && IsRun(c, nets, events) && t <= |events|
    ensures (j, id) in nets[t].prevoted
            <==> exists i: nat, p: Proposal :: i < t && p.id == id && LeaderDelivers(nets, events, j, p, i)
  {
    ContentHolds(c, nets, events, t);
    if (j, id) in nets[t].prevoted {
      var p :| (j, p) in nets[t].validated && p.id == id;
      ValidatedFromLeader(c, nets, events, j, p, t);
      var i: nat :| i < t && LeaderDelivers(nets, events, j, p, i);
    }
    if i: nat, p: Proposal :| i < t && p.id == id && LeaderDelivers(nets, events, j, p, i) {
      ContentHolds(c, nets, events, i);
      AcceptanceIsPrevoted(nets[i], j, p);
      assert nets[i + 1] == Step(nets[i], events[i]);
      PrevotesLast(c, nets, events, j, id, i + 1, t);
    }
  }

  predicate LeaderBrings(nets: seq<Net>, events: seq<Event>, j: string, p: Proposal, i: nat)
    requires i < |nets| && i < |events|
  {
    LeaderDelivers(nets, events, j, p, i) || LeaderProposes(nets, events, j, p, i)
  }

  /** A node's leader of the time delivered this proposal, or the node was leader and made it. */
  ghost predicate FromLeader(nets: seq<Net>, events: seq<Event>, j: string, p: Proposal, t: nat)
    requires t <= |nets| && t <= |events|
  {
    exists i: nat :: i < t && LeaderBrings(nets, events, j, p, i)
  }

  /** A step changes what a node has on file only by its leader's proposal, or by its own as leader. */
  lemma FilingStep(c: Config, nets: seq<Net>, events: seq<Event>, j: string, id: string, t: nat)
    requires ValidConfig(c) && IsRun(c, nets, events) && t < |events| && j in nets[t + 1].nodes
    ensures j in nets[t].nodes
    ensures var f, f' := Filed(nets[t].nodes[j], id), Filed(nets[t + 1].nodes[j], id);
            f' == f || (f'.Some? && f'.value.id == id && LeaderBrings(nets, events, j, f'.value, t))
  {
    ContentHolds(c, nets, events, t);
    assert Enabled(c, nets[t], events[t]) && nets[t + 1] == Step(nets[t], events[t]);
    if events[t].node == j {
      EventFiles(nets[t].nodes[j], events[t], id);
    }
  }

  /** Whatever a node has on file came from a leader. */
  lemma {:induction false} FiledFromLeader(
    c: Config, nets: seq<Net>, events: seq<Event>, j: string, id: string, t: nat)
    requires ValidConfig(c) && IsRun(c, nets, events) && t <= |events| && j in nets[t].nodes
    requires Filed(nets[t].nodes[j], id).Some?
    ensures var p := Filed(nets[t].nodes[j], id).value; p.id == id && FromLeader(nets, events, j, p, t)
  {
    if t > 0 {
      var p := Filed(nets[t].nodes[j], id).value;
      FilingStep(c, nets, events, j, id, t - 1);
      if Filed(nets[t - 1].nodes[j], id) == Some(p) {
        FiledFromLeader(c, nets, events, j, id, t - 1);
        var i: nat :| i < t - 1 && LeaderBrings(nets, events, j, p, i);
      } else {
        assert LeaderBrings(nets, events, j, p, t - 1);
      }
    }
  }

  /** What is committed at a node came from its leader of some time. */
  lemma {:induction false} CommitsFromLeader(
    c: Config, nets: seq<Net>, events: seq<Event>, t: nat, m: Commit)
    requires ValidConfig(c) && IsRun(c, nets, events) && t <= |events| && m in nets[t].commits
    ensures m.content.Some? && m.content.value.id == m.id && FromLeader(nets, events, m.node, m.content.value, t)
  {
    if t > 0 {
      var net, e := nets[t - 1], events[t - 1];
      assert Enabled(c, net, e) && nets[t - 1 + 1] == Step(net, e);
      if m in net.commits {
        CommitsFromLeader(c, nets, events, t - 1, m);
      } else {
        ContentHolds(c, nets, events, t);
        FiledFromLeader(c, nets, events, m.node, m.id, t);
      }
    }
  }

  // ----- whose turn it is -----

  function CountElections(events: seq<Event>, j: string, t: nat): nat
    requires t <= |events|
  {
    if t == 0 then 0 else CountElections(events, j, t - 1) + if events[t - 1] == Elect(j) then 1 else 0
  }

  /** A counter of 64 bits with a sign, after k increments from zero. */
  function Wrapped(k: nat): int {
    if k == 0 then 0 else if Wrapped(k - 1) == INT64 - 1 then -INT64 else Wrapped(k - 1) + 1
  }

  /** Up to 2^63 elections it just counts them. */
  lemma {:induction false} WrappedCounts(k: nat)
    requires k < INT64
    ensures Wrapped(k) == k
  {
    if k > 0 {
      WrappedCounts(k - 1);
    }
  }

  /** The leader after k elections: members in turn; none before the first, the first where the term is negative. */
  function InTurn(members: seq<string>, k: nat): string
    requires members != []
  {
    if k == 0 then "" else if Wrapped(k - 1) < 0 then members[0] else members[Wrapped(k - 1) % |members|]
  }

  lemma ChecksKeepTerm(st: NodeState, x: string)
    ensures CheckPrecommits(st, x).st.term == CheckPrevotes(st, x).st.term == st.term
  {
  }

  lemma EventTerm(st: NodeState, e: Event)
    ensures !e.Elect? ==> EffectOf(st, e).st.term == st.term
  {
    match e
    case DeliverProposal(_, p) =>
      var known := if p.id in st.proposals then st else Open(st, p);
      ChecksKeepTerm(known.(prevotes := Record(known.prevotes, Vote(p.id, st.localId, Prevote, true))), p.id);
    case DeliverVote(_, v) =>
      ChecksKeepTerm(st.(prevotes := Record(st.prevotes, v)), v.proposalId);
      ChecksKeepTerm(st.(precommits := Record(st.precommits, v)), v.proposalId);
    case Propose(_, _) =>
    case Elect(_) =>
  }

  lemma ElectionTurn(st: NodeState, members: seq<string>, k: nat)
    requires st.nodes == members != [] && st.term == Wrapped(k)
    ensures Led(OnElect(st), members, k + 1)
  {
  }

  /** The node's leader is the member whose turn it is after k elections. */
  predicate Led(st: NodeState, members: seq<string>, k: nat)
    requires members != []
  {
    st.leader == InTurn(members, k) && st.term == Wrapped(k) && st.nodes == members
  }

  lemma StepOfTheRun(c: Config, nets: seq<Net>, events: seq<Event>, t: nat)
    requires IsRun(c, nets, events) && t < |events|
    ensures events[t].node in nets[t].nodes && StepTo(nets[t], events[t], nets[t + 1])
  {
  }

  ghost predicate StepTo(net: Net, e: Event, net': Net)
    requires e.node in net.nodes
  {
    net' == Step(net, e)
  }

  lemma TurnStep(net: Net, e: Event, net': Net, j: string, members: seq<string>, k: nat)
    requires members != [] && e.node in net.nodes && j in net.nodes && Led(net.nodes[j], members, k)
    requires StepTo(net, e, net')
    ensures j in net'.nodes && Led(net'.nodes[j], members, if e == Elect(j) then k + 1 else k)
  {
    if e == Elect(j) {
      ElectionTurn(net.nodes[j], members, k);
    } else if e.node == j {
      EventLeads(net.nodes[j], e);
      EventTerm(net.nodes[j], e);
    }
  }

  lemma LedStays(c: Config, nets: seq<Net>, events: seq<Event>, j: string, t: nat)
    requires c.members != [] && IsRun(c, nets, events) && t < |events|
    requires j in nets[t].nodes && Led(nets[t].nodes[j], c.members, CountElections(events, j, t))
    ensures j in nets[t + 1].nodes && Led(nets[t + 1].nodes[j], c.members, CountElections(events, j, t + 1))
  {
    StepOfTheRun(c, nets, events, t);
    TurnStep(nets[t], events[t], nets[t + 1], j, c.members, CountElections(events, j, t));
  }

  /** At every time a node's leader is the member whose turn it is by that node's own count of elections. */
  lemma {:induction false} LeaderIsInTurn(c: Config, nets: seq<Net>, events: seq<Event>, j: string, t: nat)
    requires ValidConfig(c) && IsRun(c, nets, events) && t <= |events| && j in c.honest
    ensures j in nets[t].nodes && Led(nets[t].nodes[j], c.members, CountElections(events, j, t))
  {
    if t == 0 {
      assert nets[0] == Start(c);
    } else {
      LeaderIsInTurn(c, nets, events, j, t - 1);
      LedStays(c, nets, events, j, t - 1);
    }
  }

  /** The member was handed a proposal under this ID by the member whose turn it was, by its own count. */
  ghost predicate HeardInTurn(c: Config, events: seq<Event>, j: string, id: string)
    requires c.members != []
  {
    exists i: nat, p: Proposal ::
      i < |events| && events[i] == DeliverProposal(j, p) && p.id == id
      && p.leaderId == InTurn(c.members, CountElections(events, j, i))
  }

  lemma PrevoterHeardInTurn(c: Config, nets: seq<Net>, events: seq<Event>, j: string, id: string)
    requires ValidConfig(c) && IsRun(c, nets, events) && (j, id) in nets[|events|].prevoted
    ensures HeardInTurn(c, events, j, id)
  {
    PrevotedForLeader(c, nets, events, j, id, |events|);
    var i: nat, p: Proposal :| i < |events| && p.id == id && LeaderDelivers(nets, events, j, p, i);
    ContentHolds(c, nets, events, i);
    LeaderIsInTurn(c, nets, events, j, i);
  }

  /**
   Behind every commit stand f+1 honest members that were each handed a proposal under its ID by the
   member whose turn it was, going by the elections that node had held; and what was committed came
   to the committing node from its leader of the time, or was its own as leader.
   */
  lemma CommitsNameTheLeader(c: Config, nets: seq<Net>, events: seq<Event>, k: nat)
    requires ValidConfig(c) && IsRun(c, nets, events) && k < |nets[|events|].commits|
    ensures var m := nets[|events|].commits[k];
            var voters := HonestPrevoters(c, nets[|events|], m.id);
            |voters| >= MaxFaulty(|c.members|) + 1 && (forall j :: j in voters ==> HeardInTurn(c, events, j, m.id))
            && m.content.Some? && m.content.value.id == m.id
            && FromLeader(nets, events, m.node, m.content.value, |events|)
  {
    var m := nets[|events|].commits[k];
    CommitsAreSafe(c, nets, events, k, k);
    CommitsFromLeader(c, nets, events, |events|, m);
    forall j | j in HonestPrevoters(c, nets[|events|], m.id)
      ensures HeardInTurn(c, events, j, m.id)
    {
      PrevoterHeardInTurn(c, nets, events, j, m.id);
    }
  }
}
