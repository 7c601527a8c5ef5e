/**
 One node of the two-phase vote: the handlers as functions on the node's state, and the object
 whose methods carry them out.
 */
module Consensus {
  import opened Options

  datatype Proposal = Proposal(id: string, order: Option<string>, leaderId: string, orderbookHash: string)

  datatype VoteType = Prevote | Precommit | OtherType

  datatype Vote = Vote(proposalId: string, voterId: string, voteType: VoteType, result: bool)

  datatype ProposalState = ProposalState(proposal: Proposal, committed: bool)

  type Tally = map<string, Vote>

  datatype NodeState = NodeState(
    localId: string,
    nodes: seq<string>,
    leader: string,
    term: int,
    proposals: map<string, ProposalState>,
    prevotes: map<string, Tally>,
    precommits: map<string, Tally>)

  /** What a handler leaves behind: the state, the votes it sends, the precommit voters if it commits. */
  datatype Effect = Effect(st: NodeState, sent: seq<Vote>, commit: Option<set<string>>)

  /** The number of faulty nodes that n nodes tolerate. */
  function MaxFaulty(n: nat): nat {
    if n == 0 then 0 else (n - 1) / 3
  }

  function QuorumSize(n: nat): nat {
    if n == 0 then 1 else 2 * MaxFaulty(n) + 1
  }

  function TallyOf(m: map<string, Tally>, id: string): Tally {
    if id in m then m[id] else map[]
  }

  function Record(m: map<string, Tally>, v: Vote): map<string, Tally> {
    m[v.proposalId := TallyOf(m, v.proposalId)[v.voterId := v]]
  }

  function CheckPrecommits(st: NodeState, id: string): Effect {
    if |TallyOf(st.precommits, id)| < QuorumSize(|st.nodes|) || id !in st.proposals || st.proposals[id].committed then
      Effect(st, [], None)
    else
      Effect(st.(proposals := st.proposals[id := st.proposals[id].(committed := true)]), [],
             Some(TallyOf(st.precommits, id).Keys))
  }

  function CheckPrevotes(st: NodeState, id: string): Effect {
    if |TallyOf(st.prevotes, id)| < QuorumSize(|st.nodes|) then Effect(st, [], None)
    else
      var vote := Vote(id, st.localId, Precommit, true);
      CheckPrecommits(st.(precommits := Record(st.precommits, vote)), id).(sent := [vote])
  }

  predicate Acceptable(st: NodeState, p: Proposal) {
    p.id != "" && p.leaderId == st.leader && p.order.Some?
  }

  /** Votes that arrived before an unknown proposal are dropped when it arrives. */
  function Open(st: NodeState, p: Proposal): NodeState {
    st.(proposals := st.proposals[p.id := ProposalState(p, false)],
        prevotes := st.prevotes[p.id := map[]],
        precommits := st.precommits[p.id := map[]])
  }

  function OnProposal(st: NodeState, p: Proposal): Effect {
    if !Acceptable(st, p) then Effect(st, [], None)
    else
      var vote := Vote(p.id, st.localId, Prevote, true);
      var known := if p.id in st.proposals then st else Open(st, p);
      var e := CheckPrevotes(known.(prevotes := Record(known.prevotes, vote)), p.id);
      e.(sent := [vote] + e.sent)
  }

  /** A vote counts whatever its `result` says. */
  function OnVote(st: NodeState, v: Vote): Effect {
    if v.proposalId == "" then Effect(st, [], None)
    else match v.voteType
      case Prevote => CheckPrevotes(st.(prevotes := Record(st.prevotes, v)), v.proposalId)
      case Precommit => CheckPrecommits(st.(precommits := Record(st.precommits, v)), v.proposalId)
      case OtherType => Effect(st, [], None)
  }

  /** Only the leader proposes; whatever was known under the ID is forgotten. */
  function OnPropose(st: NodeState, p: Proposal): Effect {
    if st.leader != st.localId then Effect(st, [], None)
    else Effect(Open(st, p.(leaderId := st.localId)), [], None)
  }

  const INT64: int := 0x8000_0000_0000_0000

  /** Go's `%` takes the sign of its left operand; a negative index falls back to the first node. */
  function LeaderIndex(term: int, n: nat): nat
    requires n > 0
  {
    if term >= 0 then term % n else 0
  }

  function OnElect(st: NodeState): NodeState {
    if st.nodes == [] then st.(leader := st.localId)
    else
      st.(leader := st.nodes[LeaderIndex(st.term, |st.nodes|)],
          term := if st.term == INT64 - 1 then -INT64 else st.term + 1)
  }

  /** n elections in a row give every node of the list its turn, in the order of the list. */
  lemma {:induction false} ElectionsRotate(st: NodeState, k: nat)
    requires st.nodes != [] && 0 <= st.term && st.term + k < INT64 - 1
    ensures var e := OnElect(Elections(st, k));
            e.leader == st.nodes[(st.term + k) % |st.nodes|] && e.term == st.term + k + 1 && e.nodes == st.nodes
  {
    if k > 0 {
      ElectionsRotate(st, k - 1);
    }
  }

  function Elections(st: NodeState, k: nat): NodeState {
    if k == 0 then st else OnElect(Elections(st, k - 1))
  }

  predicate Committed(st: NodeState, id: string) {
    id in st.proposals && st.proposals[id].committed
  }

  lemma CheckSticks(st: NodeState, id: string, x: string)
    requires Committed(st, x)
    ensures Committed(CheckPrecommits(st, id).st, x)
    ensures Committed(CheckPrevotes(st, id).st, x)
  {
  }

  lemma ProposalSticks(st: NodeState, p: Proposal, x: string)
    requires Committed(st, x)
    ensures Committed(OnProposal(st, p).st, x)
  {
    if Acceptable(st, p) {
      var known := if p.id in st.proposals then st else Open(st, p);
      CheckSticks(known.(prevotes := Record(known.prevotes, Vote(p.id, st.localId, Prevote, true))), p.id, x);
    }
  }

  lemma VoteSticks(st: NodeState, v: Vote, x: string)
    requires Committed(st, x)
    ensures Committed(OnVote(st, v).st, x)
  {
    CheckSticks(st.(prevotes := Record(st.prevotes, v)), v.proposalId, x);
    CheckSticks(st.(precommits := Record(st.precommits, v)), v.proposalId, x);
  }

  /** A commit flag falls exactly when the node, as leader, proposes again under that ID. */
  lemma CommitSticks(st: NodeState, x: string, p: Proposal, v: Vote)
    requires Committed(st, x)
    ensures Committed(OnProposal(st, p).st, x) && Committed(OnVote(st, v).st, x) && Committed(OnElect(st), x)
    ensures Committed(OnPropose(st, p).st, x) <==> p.id != x || st.leader != st.localId
  {
    ProposalSticks(st, p, x);
    VoteSticks(st, v, x);
  }

  // ----- the object -----

  class ConsensusEngine {
    const localPeerId: string
    const nodes: seq<string>
    var currentLeader: string
    var term: int
    var proposals: map<string, ProposalState>
    var prevotes: map<string, Tally>
    var precommits: map<string, Tally>

    ghost function Abs(): NodeState
      reads this
    {
      NodeState(localPeerId, nodes, currentLeader, term, proposals, prevotes, precommits)
    }

    constructor (localPeerId: string, nodes: seq<string>)
      ensures Abs() == NodeState(localPeerId, nodes, "", 0, map[], map[], map[])
    {
      this.localPeerId, this.nodes := localPeerId, nodes;
      currentLeader, term := "", 0;
      proposals, prevotes, precommits := map[], map[], map[];
    }

    method ElectLeader()
      modifies this
      ensures Abs() == OnElect(old(Abs()))
    {
      if |nodes| == 0 {
        currentLeader := localPeerId;
        return;
      }
      var leaderIdx := LeaderIndex(term, |nodes|);
      currentLeader := nodes[leaderIdx];
      term := if term == INT64 - 1 then -INT64 else term + 1;
    }

    method ProposeMatch(p: Proposal) returns (broadcast: Option<Proposal>)
      modifies this
      ensures Abs() == OnPropose(old(Abs()), p).st
      ensures broadcast == if old(currentLeader) != localPeerId then None else Some(p.(leaderId := localPeerId))
    {
      if currentLeader != localPeerId {
        return None;
      }
      var own := p.(leaderId := localPeerId);
      OpenProposal(own);
      return Some(own);
    }

    method OpenProposal(p: Proposal)
      modifies this
      ensures Abs() == Open(old(Abs()), p)
    {
      proposals := proposals[p.id := ProposalState(p, false)];
      prevotes := prevotes[p.id := map[]];
      precommits := precommits[p.id := map[]];
    }

    method CheckPreCommitThreshold(id: string) returns (ghost commit: Option<set<string>>, committed: bool)
      modifies this
      ensures Effect(Abs(), [], commit) == CheckPrecommits(old(Abs()), id) && committed == commit.Some?
    {
      commit, committed := None, false;
      var votes := if id in precommits then precommits[id] else map[];
      if |votes| < QuorumSize(|nodes|) {
        return;
      }
      if id !in proposals || proposals[id].committed {
        return;
      }
      proposals := proposals[id := proposals[id].(committed := true)];
      commit, committed := Some(votes.Keys), true;
    }

    method CheckPreVoteThreshold(id: string)
      returns (ghost commit: Option<set<string>>, committed: bool, sent: seq<Vote>)
      modifies this
      ensures Effect(Abs(), sent, commit) == CheckPrevotes(old(Abs()), id) && committed == commit.Some?
    {
      commit, committed, sent := None, false, [];
      var votes := if id in prevotes then prevotes[id] else map[];
      if |votes| < QuorumSize(|nodes|) {
        return;
      }
      var vote := Vote(id, localPeerId, Precommit, true);
      precommits := Record(precommits, vote);
      sent := [vote];
      commit, committed := CheckPreCommitThreshold(id);
    }

    method HandleProposal(p: Proposal)
      returns (accepted: bool, sent: seq<Vote>, ghost commit: Option<set<string>>, committed: bool)
      modifies this
      ensures accepted == (p.id != "" && p.leaderId == old(currentLeader) && p.order.Some?)
      ensures if accepted then sent != [] && sent[0] == Vote(p.id, localPeerId, Prevote, true)
              else Abs() == old(Abs()) && sent == [] && !committed
      ensures Effect(Abs(), sent, commit) == OnProposal(old(Abs()), p) && committed == commit.Some?
    {
      accepted, sent, commit, committed := false, [], None, false;
      if p.id == "" || p.leaderId != currentLeader || p.order.None? {
        return;
      }
      if p.id !in proposals {
        OpenProposal(p);
      }
      var vote := Vote(p.id, localPeerId, Prevote, true);
      prevotes := Record(prevotes, vote);
      accepted := true;
      commit, committed, sent := CheckPreVoteThreshold(p.id);
      sent := [vote] + sent;
    }

    method HandleVote(v: Vote) returns (sent: seq<Vote>, ghost commit: Option<set<string>>, committed: bool)
      modifies this
      ensures Effect(Abs(), sent, commit) == OnVote(old(Abs()), v) && committed == commit.Some?
    {
      sent, commit, committed := [], None, false;
      if v.proposalId == "" {
        return;
      }
      if v.voteType == Prevote {
        prevotes := Record(prevotes, v);
        commit, committed, sent := CheckPreVoteThreshold(v.proposalId);
      } else if v.voteType == Precommit {
        precommits := Record(precommits, v);
        commit, committed := CheckPreCommitThreshold(v.proposalId);
      }
    }
  }
}
