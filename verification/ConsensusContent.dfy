/**
 What is committed under an ID.  Votes name IDs only, so agreement on contents rests on who is
 handed what: it holds in all runs exactly when no ID comes with two contents.
 */
module ConsensusContent {
  import opened Options
  import opened Consensus
  import opened ConsensusSafety

  // ----- validation is an event of the run -----

  /** An honest node's validations are the deliveries it accepted. */
  lemma {:induction false} ValidationsAreDeliveries(
    c: Config, nets: seq<Net>, events: seq<Event>, j: string, p: Proposal, t: nat)
    requires IsRun(c, nets, events) && t <= |events|
    ensures (j, p) in nets[t].validated
            <==> exists i :: 0 <= i < t && events[i] == DeliverProposal(j, p) && j in nets[i].nodes
                             && p.id != "" && p.order.Some? && p.leaderId == nets[i].nodes[j].leader
  {
    if t > 0 {
      ValidationsAreDeliveries(c, nets, events, j, p, t - 1);
      assert Enabled(c, nets[t - 1], events[t - 1]) && nets[t] == Step(nets[t - 1], events[t - 1]);
    }
  }

  // ----- contents -----

  /** A proposal that some node may accept at some time. */
  predicate Eligible(c: Config, p: Proposal) {
    p.id != "" && p.order.Some? && (p.leaderId == "" || p.leaderId in c.members)
  }

  /** The proposal an event brings to a node. */
  function Brought(e: Event): Option<Proposal> {
    match e
    case DeliverProposal(_, p) => Some(p)
    case Propose(i, p) => Some(p.(leaderId := i))
    case _ => None
  }

  ghost predicate Brings(e: Event, allowed: iset<Proposal>) {
    Brought(e).Some? ==> Brought(e).value in allowed
  }

  /** A run in which only these proposals are delivered or made. */
  ghost predicate IsRunWith(c: Config, nets: seq<Net>, events: seq<Event>, allowed: iset<Proposal>) {
    IsRun(c, nets, events) && forall i :: 0 <= i < |events| ==> Brings(events[i], allowed)
  }

  /** The honest nodes that validated this very proposal. */
  function Validators(c: Config, net: Net, p: Proposal): set<string> {
    set j | j in c.honest && (j, p) in net.validated
  }

  ghost predicate Known(c: Config, allowed: iset<Proposal>, p: Proposal, id: string) {
    p in allowed && Eligible(c, p) && p.id == id
  }

  ghost predicate FileOk(c: Config, allowed: iset<Proposal>, st: NodeState) {
    (st.leader == "" || st.leader in c.members) && st.nodes == c.members
    && forall id :: Filed(st, id).Some? ==> Known(c, allowed, Filed(st, id).value, id)
  }

  ghost predicate HistoryOk(c: Config, allowed: iset<Proposal>, net: Net) {
    (forall j, p :: (j, p) in net.validated ==> j in c.honest && Known(c, allowed, p, p.id))
    && forall j, id :: (j, id) in net.prevoted ==> exists p :: (j, p) in net.validated && p.id == id
  }

  ghost predicate RecordOk(c: Config, allowed: iset<Proposal>, net: Net) {
    (forall m :: m in net.commits ==> m.content.Some? && Known(c, allowed, m.content.value, m.id))
    && forall j, id :: j in net.nodes && Committed(net.nodes[j], id) ==>
         exists m :: m in net.commits && m.node == j && m.id == id && m.content == Filed(net.nodes[j], id)
  }

  ghost predicate ContentInv(c: Config, allowed: iset<Proposal>, net: Net) {
    net.nodes.Keys == c.honest && (forall j :: j in net.nodes ==> FileOk(c, allowed, net.nodes[j]))
    && (forall j :: j in net.nodes ==> net.nodes[j].localId == j)
    && HistoryOk(c, allowed, net) && RecordOk(c, allowed, net)
  }

  /** A handler files at most the proposal it is handed, and replaces none but by proposing anew. */
  lemma EventFiles(st: NodeState, e: Event, id: string)
    requires st.localId == e.node
    requires e.Propose? ==> !Committed(st, e.proposal.id)
    ensures var st' := EffectOf(st, e).st;
            Filed(st', id) == Filed(st, id)
            || (!Committed(st, id) && Filed(st', id) == Brought(e) && Brought(e).Some? && Brought(e).value.id == id
                && (e.DeliverProposal? ==> Acceptable(st, e.proposal))
                && (e.Propose? ==> st.leader == st.localId))
  {
    match e
    case DeliverProposal(_, p) =>
      if Acceptable(st, p) {
        var known := if p.id in st.proposals then st else Open(st, p);
        var voted := known.(prevotes := Record(known.prevotes, Vote(p.id, st.localId, Prevote, true)));
        ChecksKeepFile(voted, p.id, id);
      }
    case DeliverVote(_, v) =>
      ChecksKeepFile(st.(prevotes := Record(st.prevotes, v)), v.proposalId, id);
      ChecksKeepFile(st.(precommits := Record(st.precommits, v)), v.proposalId, id);
    case Propose(i, p) =>
    case Elect(_) =>
  }

  lemma ChecksKeepFile(st: NodeState, x: string, id: string)
    ensures Filed(CheckPrecommits(st, x).st, id) == Filed(st, id)
    ensures Filed(CheckPrevotes(st, x).st, id) == Filed(st, id)
  {
  }

  lemma ChecksKeepNames(st: NodeState, x: string)
    ensures var a, b := CheckPrecommits(st, x).st, CheckPrevotes(st, x).st;
            a.nodes == b.nodes == st.nodes && a.localId == b.localId == st.localId && a.leader == b.leader == st.leader
  {
  }

  /** A node keeps its name and its members; a leader is a member, or itself when there are none. */
  lemma EventLeads(st: NodeState, e: Event)
    ensures EffectOf(st, e).st.nodes == st.nodes && EffectOf(st, e).st.localId == st.localId
    ensures EffectOf(st, e).st.leader == st.leader
            || (e.Elect? && (EffectOf(st, e).st.leader in st.nodes || EffectOf(st, e).st.leader == st.localId))
  {
    match e
    case DeliverProposal(_, p) =>
      var known := if p.id in st.proposals then st else Open(st, p);
      ChecksKeepNames(known.(prevotes := Record(known.prevotes, Vote(p.id, st.localId, Prevote, true))), p.id);
    case DeliverVote(_, v) =>
      ChecksKeepNames(st.(prevotes := Record(st.prevotes, v)), v.proposalId);
      ChecksKeepNames(st.(precommits := Record(st.precommits, v)), v.proposalId);
    case Propose(_, _) =>
    case Elect(_) =>
  }

  lemma FileStays(c: Config, allowed: iset<Proposal>, st: NodeState, e: Event)
    requires FileOk(c, allowed, st) && Brings(e, allowed) && st.localId == e.node && e.node in c.members
    requires e.Propose? ==> e.proposal.id != "" && e.proposal.order.Some? && !Committed(st, e.proposal.id)
    ensures FileOk(c, allowed, EffectOf(st, e).st)
  {
    EventLeads(st, e);
    forall id | Filed(EffectOf(st, e).st, id).Some?
      ensures Known(c, allowed, Filed(EffectOf(st, e).st, id).value, id)
    {
      EventFiles(st, e, id);
    }
  }

  /** A prevote is sent only for a proposal validated then and there. */
  lemma PrevotesValidate(st: NodeState, e: Event)
    ensures forall v :: v in EffectOf(st, e).sent && v.voteType == Prevote ==>
              e.DeliverProposal? && Acceptable(st, e.proposal)
              && v.proposalId == e.proposal.id && v.voterId == st.localId
  {
  }

  lemma HistoryStays(c: Config, allowed: iset<Proposal>, net: Net, e: Event)
    requires ContentInv(c, allowed, net) && Enabled(c, net, e) && Brings(e, allowed)
    ensures HistoryOk(c, allowed, Step(net, e))
  {
    var after := Step(net, e);
    assert FileOk(c, allowed, net.nodes[e.node]);
    PrevotesValidate(net.nodes[e.node], e);
    forall j, id | (j, id) in after.prevoted
      ensures exists p :: (j, p) in after.validated && p.id == id
    {
      if (j, id) in net.prevoted {
        var p :| (j, p) in net.validated && p.id == id;
        assert (j, p) in after.validated;
      } else {
        assert (e.node, e.proposal) in after.validated;
      }
    }
  }

  /** A commit is recorded when its flag is raised, with what is then on file. */
  lemma FlagIsRecorded(st: NodeState, e: Event, id: string)
    requires e.Propose? ==> !Committed(st, e.proposal.id)
    ensures var r := EffectOf(st, e);
            Committed(r.st, id) && !Committed(st, id) ==> r.commit.Some? && EventId(e) == id
  {
    match e
    case DeliverProposal(_, p) => ProposalFlag(st, p, id);
    case DeliverVote(_, v) => VoteFlag(st, v, id);
    case Propose(_, _) =>
    case Elect(_) =>
  }

  lemma ProposalFlag(st: NodeState, p: Proposal, id: string)
    ensures Committed(OnProposal(st, p).st, id) && !Committed(st, id) ==> OnProposal(st, p).commit.Some? && p.id == id
  {
    if Acceptable(st, p) {
      var known := if p.id in st.proposals then st else Open(st, p);
      ChecksFlag(known.(prevotes := Record(known.prevotes, Vote(p.id, st.localId, Prevote, true))), p.id, id);
    }
  }

  lemma VoteFlag(st: NodeState, v: Vote, id: string)
    ensures Committed(OnVote(st, v).st, id) && !Committed(st, id) ==> OnVote(st, v).commit.Some? && v.proposalId == id
  {
    ChecksFlag(st.(prevotes := Record(st.prevotes, v)), v.proposalId, id);
    ChecksFlag(st.(precommits := Record(st.precommits, v)), v.proposalId, id);
  }

  lemma ChecksFlag(st: NodeState, x: string, id: string)
    ensures Committed(CheckPrecommits(st, x).st, id) && !Committed(st, id) ==>
              CheckPrecommits(st, x).commit.Some? && x == id
    ensures Committed(CheckPrevotes(st, x).st, id) && !Committed(st, id) ==>
              CheckPrevotes(st, x).commit.Some? && x == id
    ensures CheckPrecommits(st, x).commit.Some? ==> x in st.proposals
    ensures CheckPrevotes(st, x).commit.Some? ==> x in st.proposals
  {
  }

  lemma CommitIsFiled(st: NodeState, e: Event)
    ensures EffectOf(st, e).commit.Some? ==> Filed(EffectOf(st, e).st, EventId(e)).Some?
  {
  }

  lemma RecordStays(c: Config, allowed: iset<Proposal>, net: Net, e: Event)
    requires ContentInv(c, allowed, net) && Enabled(c, net, e) && Brings(e, allowed)
    requires FileOk(c, allowed, Step(net, e).nodes[e.node])
    ensures RecordOk(c, allowed, Step(net, e))
  {
    var after, st := Step(net, e), net.nodes[e.node];
    var r := EffectOf(st, e);
    CommitIsFiled(st, e);
    forall j, id | j in after.nodes && Committed(after.nodes[j], id)
      ensures exists m :: m in after.commits && m.node == j && m.id == id && m.content == Filed(after.nodes[j], id)
    {
      if j in net.nodes && Committed(net.nodes[j], id) {
        var m :| m in net.commits && m.node == j && m.id == id && m.content == Filed(net.nodes[j], id);
        EventFiles(st, e, id);
        assert m in after.commits;
      } else {
        FlagIsRecorded(st, e, id);
        assert after.commits[|net.commits|] in after.commits;
      }
    }
  }

  lemma NodesStay(c: Config, allowed: iset<Proposal>, net: Net, e: Event)
    requires ValidConfig(c) && ContentInv(c, allowed, net) && Enabled(c, net, e) && Brings(e, allowed)
    ensures Step(net, e).nodes.Keys == c.honest
    ensures forall j :: j in Step(net, e).nodes ==>
              FileOk(c, allowed, Step(net, e).nodes[j]) && Step(net, e).nodes[j].localId == j
  {
    var st := net.nodes[e.node];
    assert e.node in Members(c) && FileOk(c, allowed, st);
    FileStays(c, allowed, st, e);
    EventLeads(st, e);
    OneNodeChanges(c, allowed, net.nodes, Step(net, e).nodes, e.node);
  }

  lemma OneNodeChanges(
    c: Config, allowed: iset<Proposal>, nodes: map<string, NodeState>, nodes': map<string, NodeState>, i: string)
    requires i in nodes && i in nodes' && nodes' == nodes[i := nodes'[i]]
    requires FileOk(c, allowed, nodes'[i]) && nodes'[i].localId == i
    requires forall j :: j in nodes ==> FileOk(c, allowed, nodes[j]) && nodes[j].localId == j
    ensures forall j :: j in nodes' ==> FileOk(c, allowed, nodes'[j]) && nodes'[j].localId == j
    ensures nodes'.Keys == nodes.Keys
  {
    assert nodes'.Keys == nodes.Keys + {i};
  }

  lemma StepKeepsContent(c: Config, allowed: iset<Proposal>, net: Net, e: Event)
    requires ValidConfig(c) && ContentInv(c, allowed, net) && Enabled(c, net, e) && Brings(e, allowed)
    ensures ContentInv(c, allowed, Step(net, e))
  {
    NodesStay(c, allowed, net, e);
    HistoryStays(c, allowed, net, e);
    RecordStays(c, allowed, net, e);
  }

  lemma StepOfRun(c: Config, nets: seq<Net>, events: seq<Event>, allowed: iset<Proposal>, t: nat)
    requires IsRunWith(c, nets, events, allowed) && t < |events|
    ensures Enabled(c, nets[t], events[t]) && nets[t + 1] == Step(nets[t], events[t]) && Brings(events[t], allowed)
  {
  }

  lemma {:induction false} RunKeepsContent(
    c: Config, nets: seq<Net>, events: seq<Event>, allowed: iset<Proposal>, t: nat)
    requires ValidConfig(c) && IsRunWith(c, nets, events, allowed) && t <= |events|
    ensures ContentInv(c, allowed, nets[t])
  {
    if t > 0 {
      RunKeepsContent(c, nets, events, allowed, t - 1);
      StepOfRun(c, nets, events, allowed, t - 1);
      StepKeepsContent(c, allowed, nets[t - 1], events[t - 1]);
    }
  }

  ghost function AllBrought(events: seq<Event>): iset<Proposal> {
    iset i | 0 <= i < |events| && Brought(events[i]).Some? :: Brought(events[i]).value
  }

  /** `j` was handed a proposal with this ID that its leader of the time had made. */
  ghost predicate Accepted(nets: seq<Net>, events: seq<Event>, j: string, id: string)
    requires |nets| == |events| + 1
  {
    exists i, p ::
      0 <= i < |events| && events[i] == DeliverProposal(j, p) && p.id == id
      && j in nets[i].nodes && p.order.Some? && p.leaderId == nets[i].nodes[j].leader
  }

  lemma PrevotersAccepted(c: Config, nets: seq<Net>, events: seq<Event>, id: string)
    requires ValidConfig(c) && IsRun(c, nets, events)
    ensures forall j :: j in HonestPrevoters(c, nets[|events|], id) ==> Accepted(nets, events, j, id)
  {
    var net, all := nets[|events|], AllBrought(events);
    assert forall i :: 0 <= i < |events| ==> Brings(events[i], all);
    RunKeepsContent(c, nets, events, all, |events|);
    forall j | j in HonestPrevoters(c, net, id)
      ensures Accepted(nets, events, j, id)
    {
      var p :| (j, p) in net.validated && p.id == id;
      ValidationsAreDeliveries(c, nets, events, j, p, |events|);
    }
  }

  /** Behind every commit stand f+1 honest members that were each handed, and accepted, some proposal with its ID. */
  lemma CommitsAreValidated(c: Config, nets: seq<Net>, events: seq<Event>, k: nat)
    requires ValidConfig(c) && IsRun(c, nets, events) && k < |nets[|events|].commits|
    ensures var m := nets[|events|].commits[k];
            var voters := HonestPrevoters(c, nets[|events|], m.id);
            |voters| >= MaxFaulty(|c.members|) + 1 && forall j :: j in voters ==> Accepted(nets, events, j, m.id)
  {
    CommitsAreSafe(c, nets, events, k, k);
    PrevotersAccepted(c, nets, events, nets[|events|].commits[k].id);
  }

  // ----- one content per ID suffices -----

  /** No two proposals that nodes may accept share an ID. */
  ghost predicate OneContent(c: Config, allowed: iset<Proposal>) {
    forall p, q :: p in allowed && q in allowed && Eligible(c, p) && Eligible(c, q) && p.id == q.id ==> p == q
  }

  /** A commit stands for its content, and so do f+1 honest validators. */
  ghost predicate CommitAgrees(c: Config, net: Net, k: nat, l: nat)
    requires k < |net.commits| && l < |net.commits|
  {
    var a, b := net.commits[k], net.commits[l];
    a.content.Some? && |Validators(c, net, a.content.value)| >= MaxFaulty(|c.members|) + 1
    && (a.id == b.id ==> a.content == b.content)
  }

  lemma PrevotersValidate(c: Config, allowed: iset<Proposal>, net: Net, p: Proposal)
    requires ContentInv(c, allowed, net) && OneContent(c, allowed) && p in allowed && Eligible(c, p)
    ensures HonestPrevoters(c, net, p.id) <= Validators(c, net, p)
  {
    forall j | j in HonestPrevoters(c, net, p.id)
      ensures j in Validators(c, net, p)
    {
      var q :| (j, q) in net.validated && q.id == p.id;
      assert Known(c, allowed, q, q.id);
    }
  }

  lemma OneContentAgrees(
    c: Config, nets: seq<Net>, events: seq<Event>, allowed: iset<Proposal>, k: nat, l: nat)
    requires ValidConfig(c) && IsRunWith(c, nets, events, allowed) && OneContent(c, allowed)
    requires k < |nets[|events|].commits| && l < |nets[|events|].commits|
    ensures CommitAgrees(c, nets[|events|], k, l)
  {
    var net := nets[|events|];
    RunKeepsContent(c, nets, events, allowed, |events|);
    CommitsAreSafe(c, nets, events, k, l);
    var a, b := net.commits[k], net.commits[l];
    assert a in net.commits && b in net.commits;
    assert Known(c, allowed, a.content.value, a.id) && Known(c, allowed, b.content.value, b.id);
    PrevotersValidate(c, allowed, net, a.content.value);
    SubsetSize(HonestPrevoters(c, net, a.id), Validators(c, net, a.content.value));
  }

  // ----- two contents under one ID -----

  /** A state some run with these proposals ends in. */
  ghost predicate Reach(c: Config, allowed: iset<Proposal>, net: Net) {
    exists nets, events :: IsRunWith(c, nets, events, allowed) && nets[|events|] == net
  }

  lemma ReachStart(c: Config, allowed: iset<Proposal>)
    ensures Reach(c, allowed, Start(c))
  {
    assert IsRunWith(c, [Start(c)], [], allowed);
  }

  lemma ReachStep(c: Config, allowed: iset<Proposal>, net: Net, e: Event)
    requires Reach(c, allowed, net) && Enabled(c, net, e) && Brings(e, allowed)
    ensures Reach(c, allowed, Step(net, e))
  {
    var nets, events :| IsRunWith(c, nets, events, allowed) && nets[|events|] == net;
    var nets', events' := nets + [Step(net, e)], events + [e];
    forall i | 0 <= i < |events'|
      ensures Enabled(c, nets'[i], events'[i]) && nets'[i + 1] == Step(nets'[i], events'[i])
      ensures Brings(events'[i], allowed)
    {
      if i < |events| {
        assert Enabled(c, nets[i], events[i]) && nets[i + 1] == Step(nets[i], events[i]);
      }
    }
    assert IsRunWith(c, nets', events', allowed);
  }

  lemma ReachIsSafe(c: Config, allowed: iset<Proposal>, net: Net)
    requires ValidConfig(c) && Reach(c, allowed, net)
    ensures NetInv(c, net) && ContentInv(c, allowed, net)
  {
    var nets, events :| IsRunWith(c, nets, events, allowed) && nets[|events|] == net;
    RunKeeps(c, nets, events);
    RunKeepsContent(c, nets, events, allowed, |events|);
  }

  /** What later states keep of a node that has a proposal on file. */
  ghost predicate NodeLater(st: NodeState, st': NodeState, id: string) {
    Filed(st', id) == Filed(st, id)
    && TallyOf(st.prevotes, id).Keys <= TallyOf(st'.prevotes, id).Keys
    && TallyOf(st.precommits, id).Keys <= TallyOf(st'.precommits, id).Keys
    && (Committed(st, id) ==> Committed(st', id))
  }

  ghost predicate Later(net: Net, net': Net, id: string) {
    net.nodes.Keys == net'.nodes.Keys && net.sent <= net'.sent && net.validated == net'.validated
    && forall j :: j in net.nodes && Filed(net.nodes[j], id).Some? ==> NodeLater(net.nodes[j], net'.nodes[j], id)
  }

  lemma LaterTrans(a: Net, b: Net, d: Net, id: string)
    requires Later(a, b, id) && Later(b, d, id)
    ensures Later(a, d, id)
  {
    forall j | j in a.nodes && Filed(a.nodes[j], id).Some?
      ensures NodeLater(a.nodes[j], d.nodes[j], id)
    {
      assert NodeLater(a.nodes[j], b.nodes[j], id) && NodeLater(b.nodes[j], d.nodes[j], id);
    }
  }

  lemma ChecksLater(st: NodeState, id: string)
    ensures NodeLater(st, CheckPrecommits(st, id).st, id) && NodeLater(st, CheckPrevotes(st, id).st, id)
  {
  }

  /** Handling a vote about the ID, with what it does to the tally it belongs to. */
  lemma VoteLater(st: NodeState, v: Vote, id: string)
    requires v.proposalId == id && id != "" && v.voteType != OtherType
    ensures NodeLater(st, OnVote(st, v).st, id)
    ensures v.voteType == Prevote ==> v.voterId in TallyOf(OnVote(st, v).st.prevotes, id)
    ensures v.voteType == Precommit ==> v.voterId in TallyOf(OnVote(st, v).st.precommits, id)
  {
    ChecksLater(st.(prevotes := Record(st.prevotes, v)), id);
    ChecksLater(st.(precommits := Record(st.precommits, v)), id);
  }

  function TallyIn(st: NodeState, voteType: VoteType, id: string): Tally {
    TallyOf(if voteType == Prevote then st.prevotes else st.precommits, id)
  }

  /** A node after these members' precommits, one after the other. */
  function AfterPrecommits(st: NodeState, id: string, voters: seq<string>): NodeState {
    if voters == [] then st
    else
      var last := |voters| - 1;
      OnVote(AfterPrecommits(st, id, voters[..last]), Vote(id, voters[last], Precommit, true)).st
  }

  lemma {:induction false} PrecommitsAreTallied(st: NodeState, id: string, voters: seq<string>)
    requires id != "" && Filed(st, id).Some?
    ensures var r := AfterPrecommits(st, id, voters);
            Filed(r, id) == Filed(st, id) && r.nodes == st.nodes
            && forall v :: v in voters ==> v in TallyOf(r.precommits, id)
  {
    if voters != [] {
      var init, v := voters[..|voters| - 1], voters[|voters| - 1];
      var before, vote := AfterPrecommits(st, id, init), Vote(id, v, Precommit, true);
      PrecommitsAreTallied(st, id, init);
      VoteLater(before, vote, id);
      ChecksKeepNames(before.(precommits := Record(before.precommits, vote)), id);
      assert NodeLater(before, OnVote(before, vote).st, id);
      assert voters == init + [v];
    }
  }

  lemma QuorumCommits(st: NodeState, id: string, voters: seq<string>)
    requires id != "" && Filed(st, id).Some? && |voters| >= QuorumSize(|st.nodes|)
    requires forall i, j :: 0 <= i < j < |voters| ==> voters[i] != voters[j]
    ensures Committed(AfterPrecommits(st, id, voters), id)
  {
    var init, v := voters[..|voters| - 1], voters[|voters| - 1];
    var before := AfterPrecommits(st, id, init);
    var tally := TallyOf(Record(before.precommits, Vote(id, v, Precommit, true)), id);
    PrecommitsAreTallied(st, id, init);
    MembersCount(voters);
    assert voters == init + [v];
    assert (set m | m in voters) <= tally.Keys;
    SubsetSize((set m | m in voters), tally.Keys);
    EnoughPrecommits(before, Vote(id, v, Precommit, true));
  }

  lemma EnoughPrecommits(st: NodeState, v: Vote)
    requires v.voteType == Precommit && v.proposalId != "" && v.proposalId in st.proposals
    requires |TallyOf(Record(st.precommits, v), v.proposalId)| >= QuorumSize(|st.nodes|)
    ensures Committed(OnVote(st, v).st, v.proposalId)
  {
  }

  /**
   Why a leader must not propose again under an ID it has committed: that takes its commit flag
   down, and any quorum of precommits, be they the old ones, commits the ID a second time.
   */
  lemma ReproposalCommitsAgain(st: NodeState, p: Proposal, voters: seq<string>)
    requires Committed(st, p.id) && st.leader == st.localId && p.id != ""
    requires |voters| >= QuorumSize(|st.nodes|)
    requires forall i, j :: 0 <= i < j < |voters| ==> voters[i] != voters[j]
    ensures var again := OnPropose(st, p).st;
            !Committed(again, p.id) && Committed(AfterPrecommits(again, p.id, voters), p.id)
  {
    QuorumCommits(OnPropose(st, p).st, p.id, voters);
  }

  /** A vote that was sent is handed to a node. */
  lemma HandVote(c: Config, allowed: iset<Proposal>, net: Net, j: string, v: Vote) returns (net': Net)
    requires Reach(c, allowed, net) && j in net.nodes && v in net.sent
    requires v.proposalId != "" && v.voteType != OtherType
    ensures Reach(c, allowed, net') && Later(net, net', v.proposalId)
    ensures net'.nodes == net.nodes[j := OnVote(net.nodes[j], v).st]
    ensures forall w :: w in OnVote(net.nodes[j], v).sent ==> w in net'.sent
    ensures v.voterId in TallyIn(net'.nodes[j], v.voteType, v.proposalId)
  {
    var e := DeliverVote(j, v);
    net' := Step(net, e);
    ReachStep(c, allowed, net, e);
    VoteLater(net.nodes[j], v, v.proposalId);
  }

  /** One more vote is gathered. */
  lemma GatherOne(c: Config, allowed: iset<Proposal>, net: Net, mid: Net, j: string, v: Vote) returns (net': Net)
    requires Reach(c, allowed, mid) && j in net.nodes && v in net.sent && Later(net, mid, v.proposalId)
    requires v.proposalId != "" && v.voteType != OtherType && Filed(net.nodes[j], v.proposalId).Some?
    ensures Reach(c, allowed, net') && Later(net, net', v.proposalId)
    ensures TallyIn(mid.nodes[j], v.voteType, v.proposalId).Keys
            <= TallyIn(net'.nodes[j], v.voteType, v.proposalId).Keys
    ensures v.voterId in TallyIn(net'.nodes[j], v.voteType, v.proposalId)
  {
    net' := HandVote(c, allowed, mid, j, v);
    LaterTrans(net, mid, net', v.proposalId);
    assert NodeLater(net.nodes[j], mid.nodes[j], v.proposalId);
    assert NodeLater(mid.nodes[j], net'.nodes[j], v.proposalId);
  }

  /** Every honest member's vote of one kind is handed to a node. */
  lemma GatherVotes(c: Config, allowed: iset<Proposal>, net: Net, j: string, id: string, voteType: VoteType)
    returns (net': Net)
    requires Reach(c, allowed, net) && j in net.nodes && id != "" && voteType != OtherType
    requires Filed(net.nodes[j], id).Some?
    requires forall k :: k in c.honest ==> Vote(id, k, voteType, true) in net.sent
    ensures Reach(c, allowed, net') && Later(net, net', id) && c.honest <= TallyIn(net'.nodes[j], voteType, id).Keys
  {
    net' := net;
    var todo := c.honest;
    while todo != {}
      invariant todo <= c.honest && Reach(c, allowed, net') && Later(net, net', id)
      invariant c.honest - todo <= TallyIn(net'.nodes[j], voteType, id).Keys
      decreases |todo|
    {
      var k :| k in todo;
      net' := GatherOne(c, allowed, net, net', j, Vote(id, k, voteType, true));
      todo := todo - {k};
    }
  }

  /** The honest members make a quorum. */
  lemma HonestSuffice(c: Config, voters: set<string>)
    requires ValidConfig(c) && c.honest <= voters
    ensures |voters| >= QuorumSize(|c.members|)
  {
    MembersCount(c.members);
    assert Members(c) == c.honest + (Members(c) - c.honest);
    SubsetSize(c.honest, voters);
  }

  /** A node handed all honest prevotes sends its precommit. */
  lemma Precommits(c: Config, allowed: iset<Proposal>, net: Net, j: string, id: string) returns (net': Net)
    requires ValidConfig(c) && Reach(c, allowed, net) && j in c.honest && id != "" && j in net.nodes
    requires Filed(net.nodes[j], id).Some?
    requires forall k :: k in c.honest ==> Vote(id, k, Prevote, true) in net.sent
    ensures Reach(c, allowed, net') && Later(net, net', id) && Vote(id, j, Precommit, true) in net'.sent
  {
    var all := GatherVotes(c, allowed, net, j, id, Prevote);
    ReachIsSafe(c, allowed, all);
    var own, st := Vote(id, j, Prevote, true), all.nodes[j];
    assert NodeInv(c, all, j, st);
    net' := HandVote(c, allowed, all, j, own);
    LaterTrans(net, all, net', id);
    var voted := st.(prevotes := Record(st.prevotes, own));
    HonestSuffice(c, TallyOf(voted.prevotes, id).Keys);
    PrecommitIsSent(voted, id);
  }

  lemma PrecommitIsSent(st: NodeState, id: string)
    requires |TallyOf(st.prevotes, id)| >= QuorumSize(|st.nodes|)
    ensures Vote(id, st.localId, Precommit, true) in CheckPrevotes(st, id).sent
  {
    var vote := Vote(id, st.localId, Precommit, true);
    assert CheckPrevotes(st, id).sent == [vote];
    assert [vote][0] == vote;
  }

  /** A node handed all honest precommits commits, if it has not. */
  lemma Commits(c: Config, allowed: iset<Proposal>, net: Net, j: string, id: string) returns (net': Net)
    requires ValidConfig(c) && Reach(c, allowed, net) && j in c.honest && id != "" && j in net.nodes
    requires Filed(net.nodes[j], id).Some?
    requires forall k :: k in c.honest ==> Vote(id, k, Precommit, true) in net.sent
    ensures Reach(c, allowed, net') && Later(net, net', id) && Committed(net'.nodes[j], id)
  {
    var all := GatherVotes(c, allowed, net, j, id, Precommit);
    ReachIsSafe(c, allowed, all);
    var own, st := Vote(id, j, Precommit, true), all.nodes[j];
    assert NodeInv(c, all, j, st) && NodeLater(net.nodes[j], st, id);
    net' := HandVote(c, allowed, all, j, own);
    LaterTrans(net, all, net', id);
    HonestSuffice(c, TallyOf(Record(st.precommits, own), id).Keys);
  }

  lemma ElectionMovesOneNode(net: Net, j: string)
    requires j in net.nodes
    ensures Step(net, Elect(j)) == net.(nodes := net.nodes[j := OnElect(net.nodes[j])])
  {
    assert (set v: Vote | v in []) == {};
    assert Step(net, Elect(j)).commits == net.commits;
  }

  /** A node in its initial state holds elections. */
  lemma HoldElections(c: Config, allowed: iset<Proposal>, net: Net, j: string, n: nat) returns (net': Net)
    requires Reach(c, allowed, net) && j in net.nodes && net.nodes[j] == Initial(c, j)
    ensures Reach(c, allowed, net') && net' == net.(nodes := net.nodes[j := Elections(Initial(c, j), n)])
    decreases n
  {
    if n == 0 {
      net' := net;
      assert net.nodes[j := net.nodes[j]] == net.nodes;
    } else {
      var before := HoldElections(c, allowed, net, j, n - 1);
      net' := Step(before, Elect(j));
      ReachStep(c, allowed, before, Elect(j));
      ElectionMovesOneNode(before, j);
      assert net'.nodes == net.nodes[j := Elections(Initial(c, j), n)];
    }
  }

  lemma {:induction false} ElectionsFileNothing(st: NodeState, n: nat)
    ensures Elections(st, n).proposals == st.proposals && Elections(st, n).localId == st.localId
  {
    if n > 0 {
      ElectionsFileNothing(st, n - 1);
    }
  }

  /** How many elections make a member, or nobody yet, the leader. */
  lemma TurnOf(c: Config, j: string, leader: string) returns (n: nat)
    requires c.members != [] && |c.members| < INT64 - 1 && (leader == "" || leader in c.members)
    ensures Elections(Initial(c, j), n).leader == leader
  {
    if leader == "" {
      n := 0;
    } else {
      var i :| 0 <= i < |c.members| && c.members[i] == leader;
      ElectedAt(c, j, i);
      n := i + 1;
    }
  }

  lemma ElectedAt(c: Config, j: string, i: nat)
    requires i < |c.members| < INT64 - 1
    ensures Elections(Initial(c, j), i + 1).leader == c.members[i]
  {
    ElectionsRotate(Initial(c, j), i);
    SmallRemainder(i, |c.members|);
    assert Elections(Initial(c, j), i + 1) == OnElect(Elections(Initial(c, j), i));
  }

  lemma SmallRemainder(i: nat, n: nat)
    requires i < n
    ensures i % n == i
  {
  }

  /** A node in its initial state elects the proposal's leader, accepts the proposal and prevotes. */
  lemma FileAt(c: Config, allowed: iset<Proposal>, net: Net, j: string, p: Proposal) returns (net': Net)
    requires c.members != [] && |c.members| < INT64 - 1
    requires Reach(c, allowed, net) && j in net.nodes && net.nodes[j] == Initial(c, j)
    requires p in allowed && Eligible(c, p)
    ensures Reach(c, allowed, net') && net'.nodes.Keys == net.nodes.Keys
    ensures forall k :: k in net.nodes && k != j ==> net'.nodes[k] == net.nodes[k]
    ensures Filed(net'.nodes[j], p.id) == Some(p)
    ensures net.sent <= net'.sent && Vote(p.id, j, Prevote, true) in net'.sent
    ensures net'.validated == net.validated + {(j, p)}
  {
    var n := TurnOf(c, j, p.leaderId);
    var elected := HoldElections(c, allowed, net, j, n);
    var st := elected.nodes[j];
    ElectionsFileNothing(Initial(c, j), n);
    net' := Step(elected, DeliverProposal(j, p));
    ReachStep(c, allowed, elected, DeliverProposal(j, p));
    AcceptedIsFiled(st, p);
  }

  lemma AcceptedIsFiled(st: NodeState, p: Proposal)
    requires Acceptable(st, p) && Filed(st, p.id).None?
    ensures Filed(OnProposal(st, p).st, p.id) == Some(p)
    ensures Vote(p.id, st.localId, Prevote, true) in OnProposal(st, p).sent
  {
    var vote, known := Vote(p.id, st.localId, Prevote, true), Open(st, p);
    var voted := known.(prevotes := Record(known.prevotes, vote));
    ChecksKeepFile(voted, p.id, p.id);
    assert OnProposal(st, p).sent[0] == vote;
  }

  /** What each node is handed: one of them the first content, the others the second. */
  function Handed(a: string, p: Proposal, q: Proposal, j: string): Proposal {
    if j == a then p else q
  }

  /** The nodes outside `todo` have filed and prevoted what they were handed, the others nothing. */
  ghost predicate HandedOut(c: Config, net: Net, a: string, p: Proposal, q: Proposal, todo: set<string>) {
    net.nodes.Keys == c.honest && todo <= c.honest
    && (forall j :: j in todo ==> net.nodes[j] == Initial(c, j))
    && (forall j :: j in c.honest - todo ==>
          Filed(net.nodes[j], p.id) == Some(Handed(a, p, q, j)) && Vote(p.id, j, Prevote, true) in net.sent)
    && forall j, x :: (j, x) in net.validated ==> j in c.honest - todo && x == Handed(a, p, q, j)
  }

  lemma HandOut(c: Config, allowed: iset<Proposal>, a: string, p: Proposal, q: Proposal) returns (net: Net)
    requires ValidConfig(c) && |c.members| < INT64 - 1
    requires p in allowed && q in allowed && Eligible(c, p) && Eligible(c, q) && p.id == q.id
    ensures Reach(c, allowed, net) && HandedOut(c, net, a, p, q, {})
  {
    net := Start(c);
    ReachStart(c, allowed);
    var todo := c.honest;
    while todo != {}
      invariant todo <= c.honest && Reach(c, allowed, net) && HandedOut(c, net, a, p, q, todo)
      decreases |todo|
    {
      var j :| j in todo;
      net := HandTo(c, allowed, net, a, p, q, todo, j);
      todo := todo - {j};
    }
  }

  lemma HandTo(
    c: Config, allowed: iset<Proposal>, net: Net, a: string, p: Proposal, q: Proposal, todo: set<string>, j: string)
    returns (net': Net)
    requires ValidConfig(c) && |c.members| < INT64 - 1
    requires p in allowed && q in allowed && Eligible(c, p) && Eligible(c, q) && p.id == q.id
    requires j in todo && todo <= c.honest && Reach(c, allowed, net) && HandedOut(c, net, a, p, q, todo)
    ensures Reach(c, allowed, net') && HandedOut(c, net', a, p, q, todo - {j})
  {
    net' := FileAt(c, allowed, net, j, Handed(a, p, q, j));
    HandedMore(c, net, net', a, p, q, todo, j);
  }

  lemma HandedMore(
    c: Config, net: Net, net': Net, a: string, p: Proposal, q: Proposal, todo: set<string>, j: string)
    requires p.id == q.id && j in todo && HandedOut(c, net, a, p, q, todo)
    requires net'.nodes.Keys == net.nodes.Keys && forall k :: k in net.nodes && k != j ==> net'.nodes[k] == net.nodes[k]
    requires Filed(net'.nodes[j], p.id) == Some(Handed(a, p, q, j))
    requires net.sent <= net'.sent && Vote(p.id, j, Prevote, true) in net'.sent
    requires net'.validated == net.validated + {(j, Handed(a, p, q, j))}
    ensures HandedOut(c, net', a, p, q, todo - {j})
  {
    forall k | k in c.honest - (todo - {j})
      ensures Filed(net'.nodes[k], p.id) == Some(Handed(a, p, q, k)) && Vote(p.id, k, Prevote, true) in net'.sent
    {
      if k != j {
        assert k in c.honest - todo;
      }
    }
  }

  ghost predicate AllSent(net: Net, id: string, voteType: VoteType, senders: set<string>) {
    forall k :: k in senders ==> Vote(id, k, voteType, true) in net.sent
  }

  lemma OneMoreSent(mid: Net, net: Net, id: string, voteType: VoteType, senders: set<string>, k: string)
    requires AllSent(mid, id, voteType, senders - {k})
    requires mid.sent <= net.sent && Vote(id, k, voteType, true) in net.sent
    ensures AllSent(net, id, voteType, senders)
  {
    forall j | j in senders
      ensures Vote(id, j, voteType, true) in net.sent
    {
      if j != k {
        assert j in senders - {k};
      }
    }
  }

  /** Every honest node has something on file under the ID and has prevoted. */
  ghost predicate AllVoted(c: Config, net: Net, id: string) {
    net.nodes.Keys == c.honest && AllSent(net, id, Prevote, c.honest)
    && forall k :: k in net.nodes ==> Filed(net.nodes[k], id).Some?
  }

  lemma PrecommitOne(c: Config, allowed: iset<Proposal>, net: Net, mid: Net, k: string, id: string) returns (net': Net)
    requires ValidConfig(c) && Reach(c, allowed, mid) && Later(net, mid, id) && id != ""
    requires k in c.honest && AllVoted(c, net, id)
    ensures Reach(c, allowed, net') && Later(net, net', id) && mid.sent <= net'.sent
    ensures Vote(id, k, Precommit, true) in net'.sent
  {
    assert NodeLater(net.nodes[k], mid.nodes[k], id);
    net' := Precommits(c, allowed, mid, k, id);
    LaterTrans(net, mid, net', id);
  }

  lemma LaterSelf(net: Net, id: string)
    ensures Later(net, net, id)
  {
  }

  /** From there honest nodes send their precommits. */
  lemma PrecommitsOf(c: Config, allowed: iset<Proposal>, net: Net, id: string, senders: set<string>) returns (net': Net)
    requires ValidConfig(c) && Reach(c, allowed, net) && id != "" && AllVoted(c, net, id) && senders <= c.honest
    ensures Reach(c, allowed, net') && Later(net, net', id) && AllSent(net', id, Precommit, senders)
    decreases |senders|
  {
    if senders == {} {
      net' := net;
      LaterSelf(net, id);
    } else {
      var k :| k in senders;
      var mid := PrecommitsOf(c, allowed, net, id, senders - {k});
      net' := PrecommitOne(c, allowed, net, mid, k, id);
      OneMoreSent(mid, net', id, Precommit, senders, k);
    }
  }

  /** And two nodes that have something on file commit it. */
  lemma BothCommit(c: Config, allowed: iset<Proposal>, net: Net, a: string, b: string, id: string) returns (net': Net)
    requires ValidConfig(c) && Reach(c, allowed, net) && id != "" && net.nodes.Keys == c.honest
    requires a in c.honest && b in c.honest && Filed(net.nodes[a], id).Some? && Filed(net.nodes[b], id).Some?
    requires AllSent(net, id, Precommit, c.honest)
    ensures Reach(c, allowed, net') && Later(net, net', id)
    ensures Committed(net'.nodes[a], id) && Committed(net'.nodes[b], id)
  {
    var once := Commits(c, allowed, net, a, id);
    assert NodeLater(net.nodes[b], once.nodes[b], id) && NodeLater(net.nodes[a], once.nodes[a], id);
    net' := Commits(c, allowed, once, b, id);
    assert NodeLater(once.nodes[a], net'.nodes[a], id);
    LaterTrans(net, once, net', id);
  }

  lemma CommitOnRecord(c: Config, allowed: iset<Proposal>, net: Net, j: string, p: Proposal)
    requires ValidConfig(c) && Reach(c, allowed, net) && j in net.nodes
    requires Committed(net.nodes[j], p.id) && Filed(net.nodes[j], p.id) == Some(p)
    ensures exists m :: m in net.commits && m.node == j && m.id == p.id && m.content == Some(p)
  {
    ReachIsSafe(c, allowed, net);
  }

  lemma HandedIsVoted(c: Config, net: Net, a: string, p: Proposal, q: Proposal)
    requires HandedOut(c, net, a, p, q, {})
    ensures AllVoted(c, net, p.id)
    ensures forall j :: j in c.honest ==> Filed(net.nodes[j], p.id) == Some(Handed(a, p, q, j))
    ensures p != q ==> Validators(c, net, p) <= {a}
  {
    assert c.honest - {} == c.honest;
  }

  /** Once all have voted, two nodes can be brought to commit what they have on file. */
  lemma VoteThrough(c: Config, allowed: iset<Proposal>, net: Net, a: string, b: string, id: string) returns (net': Net)
    requires ValidConfig(c) && Reach(c, allowed, net) && id != "" && AllVoted(c, net, id)
    requires a in c.honest && b in c.honest
    ensures Reach(c, allowed, net') && net'.nodes.Keys == c.honest && net'.validated == net.validated
    ensures Committed(net'.nodes[a], id) && Committed(net'.nodes[b], id)
    ensures Filed(net'.nodes[a], id) == Filed(net.nodes[a], id) && Filed(net'.nodes[b], id) == Filed(net.nodes[b], id)
  {
    var voted := PrecommitsOf(c, allowed, net, id, c.honest);
    assert NodeLater(net.nodes[a], voted.nodes[a], id) && NodeLater(net.nodes[b], voted.nodes[b], id);
    net' := BothCommit(c, allowed, voted, a, b, id);
    assert NodeLater(voted.nodes[a], net'.nodes[a], id) && NodeLater(voted.nodes[b], net'.nodes[b], id);
  }

  /**
   Whenever two proposals that nodes may accept share an ID, some run commits the one at `a` and
   the other at `b`, although `a` alone validated the first.
   */
  lemma TwoContentsCommit(c: Config, allowed: iset<Proposal>, a: string, b: string, p: Proposal, q: Proposal)
    returns (net: Net)
    requires ValidConfig(c) && |c.members| < INT64 - 1 && a in c.honest && b in c.honest && a != b
    requires p in allowed && q in allowed && Eligible(c, p) && Eligible(c, q) && p.id == q.id
    ensures Reach(c, allowed, net) && (p != q ==> Validators(c, net, p) <= {a})
    ensures exists m :: m in net.commits && m.node == a && m.id == p.id && m.content == Some(p)
    ensures exists m :: m in net.commits && m.node == b && m.id == p.id && m.content == Some(q)
  {
    var handed := HandOut(c, allowed, a, p, q);
    HandedIsVoted(c, handed, a, p, q);
    net := VoteThrough(c, allowed, handed, a, b, p.id);
    CommitOnRecord(c, allowed, net, a, p);
    CommitOnRecord(c, allowed, net, b, q);
  }

  /** In every run with these proposals each commit stands for its content. */
  ghost predicate AlwaysAgrees(c: Config, allowed: iset<Proposal>) {
    forall net :: Reach(c, allowed, net) ==>
      forall k, l :: 0 <= k < |net.commits| && 0 <= l < |net.commits| ==> CommitAgrees(c, net, k, l)
  }

  /**
   With at least two honest members: in every run each commit's content was validated by f+1
   honest members, and commits under one ID agree, if and only if no two proposals that nodes may
   accept share an ID.
   */
  lemma AgreementIffOneContent(c: Config, allowed: iset<Proposal>, a: string, b: string)
    requires ValidConfig(c) && |c.members| < INT64 - 1 && a in c.honest && b in c.honest && a != b
    ensures AlwaysAgrees(c, allowed) <==> OneContent(c, allowed)
  {
    if OneContent(c, allowed) {
      forall net, k, l | Reach(c, allowed, net) && 0 <= k < |net.commits| && 0 <= l < |net.commits|
        ensures CommitAgrees(c, net, k, l)
      {
        var nets, events :| IsRunWith(c, nets, events, allowed) && nets[|events|] == net;
        OneContentAgrees(c, nets, events, allowed, k, l);
      }
    } else {
      var p, q :| p in allowed && q in allowed && Eligible(c, p) && Eligible(c, q) && p.id == q.id && p != q;
      var net := TwoContentsCommit(c, allowed, a, b, p, q);
      var m :| m in net.commits && m.node == a && m.id == p.id && m.content == Some(p);
      var n :| n in net.commits && n.node == b && n.id == p.id && n.content == Some(q);
      var k :| 0 <= k < |net.commits| && net.commits[k] == m;
      var l :| 0 <= l < |net.commits| && net.commits[l] == n;
      assert !CommitAgrees(c, net, k, l);
    }
  }
}
