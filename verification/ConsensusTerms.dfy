/** What a vote or a proposal leads to at one node, counted in voters. */
module ConsensusTerms {
  import opened Options
  import opened Consensus

  function Voters(m: map<string, Tally>, id: string): set<string> {
    if id in m then m[id].Keys else {}
  }

  /** How many voters it takes among n members: two thirds, and one for an empty list. */
  function Enough(n: nat): nat {
    if n == 0 then 1 else 2 * ((n - 1) / 3) + 1
  }

  predicate IsFiled(st: NodeState, id: string) {
    id in st.proposals
  }

  predicate IsCommitted(st: NodeState, id: string) {
    id in st.proposals && st.proposals[id].committed
  }

  /** Nothing but the two tallies and the commit flag of this ID differs. */
  ghost predicate OnlyVotesDiffer(st: NodeState, st': NodeState, id: string) {
    st' == st.(proposals := st'.proposals, prevotes := st'.prevotes, precommits := st'.precommits)
    && st'.proposals.Keys == st.proposals.Keys
    && (forall x :: x in st.proposals ==> st'.proposals[x].proposal == st.proposals[x].proposal)
    && forall x :: x != id ==>
         Voters(st'.prevotes, x) == Voters(st.prevotes, x) && Voters(st'.precommits, x) == Voters(st.precommits, x)
         && IsCommitted(st', x) == IsCommitted(st, x)
  }

  /**
   The node has these prevoters and precommitters, and commits if the latter are enough, unless the
   proposal is not on file or committed already.
   */
  ghost predicate Counts(st: NodeState, e: Effect, id: string, prevoters: set<string>, precommitters: set<string>) {
    var commits := |precommitters| >= Enough(|st.nodes|) && IsFiled(st, id) && !IsCommitted(st, id);
    OnlyVotesDiffer(st, e.st, id)
    && Voters(e.st.prevotes, id) == prevoters && Voters(e.st.precommits, id) == precommitters
    && e.commit == (if commits then Some(precommitters) else None)
    && IsCommitted(e.st, id) == (IsCommitted(st, id) || commits)
  }

  /** What follows once the node has these prevoters: with enough of them it adds and sends its own precommit. */
  ghost predicate Follows(st: NodeState, e: Effect, id: string, prevoters: set<string>) {
    if |prevoters| >= Enough(|st.nodes|) then
      e.sent == [Vote(id, st.localId, Precommit, true)]
      && Counts(st, e, id, prevoters, Voters(st.precommits, id) + {st.localId})
    else
      e.sent == [] && e.commit == None && OnlyVotesDiffer(st, e.st, id) && Voters(e.st.prevotes, id) == prevoters
      && Voters(e.st.precommits, id) == Voters(st.precommits, id) && IsCommitted(e.st, id) == IsCommitted(st, id)
  }

  lemma RecordAddsVoter(m: map<string, Tally>, v: Vote)
    ensures forall x :: Voters(Record(m, v), x) == Voters(m, x) + if x == v.proposalId then {v.voterId} else {}
  {
  }

  lemma VotersAreTallied(m: map<string, Tally>, id: string)
    ensures Voters(m, id) == TallyOf(m, id).Keys && |Voters(m, id)| == |TallyOf(m, id)|
  {
    assert |TallyOf(m, id)| == |TallyOf(m, id).Keys|;
  }

  lemma PrecommitsCount(st: NodeState, id: string)
    ensures var e := CheckPrecommits(st, id);
            e.sent == [] && e.st.prevotes == st.prevotes && e.st.precommits == st.precommits
            && e.st == st.(proposals := e.st.proposals) && e.st.proposals.Keys == st.proposals.Keys
            && (forall x :: x in st.proposals ==> e.st.proposals[x].proposal == st.proposals[x].proposal)
            && (forall x :: x != id ==> IsCommitted(e.st, x) == IsCommitted(st, x))
            && Counts(st, e, id, Voters(st.prevotes, id), Voters(st.precommits, id))
  {
    VotersAreTallied(st.precommits, id);
  }

  /** Recording a vote for the same ID first makes no difference to what is counted. */
  lemma CountsAfterPrevote(before: NodeState, v: Vote, e: Effect, prevoters: set<string>, precommitters: set<string>)
    requires Counts(before.(prevotes := Record(before.prevotes, v)), e, v.proposalId, prevoters, precommitters)
    ensures Counts(before, e, v.proposalId, prevoters, precommitters)
  {
    RecordAddsVoter(before.prevotes, v);
  }

  lemma CountsAfterPrecommit(before: NodeState, v: Vote, e: Effect, prevoters: set<string>, precommitters: set<string>)
    requires Counts(before.(precommits := Record(before.precommits, v)), e, v.proposalId, prevoters, precommitters)
    ensures Counts(before, e, v.proposalId, prevoters, precommitters)
  {
    RecordAddsVoter(before.precommits, v);
  }

  lemma OwnPrecommitCounts(st: NodeState, id: string)
    requires |Voters(st.prevotes, id)| >= Enough(|st.nodes|)
    ensures var e := CheckPrevotes(st, id);
            e.sent == [Vote(id, st.localId, Precommit, true)]
            && Counts(st, e, id, Voters(st.prevotes, id), Voters(st.precommits, id) + {st.localId})
  {
    var own := Vote(id, st.localId, Precommit, true);
    var voted := st.(precommits := Record(st.precommits, own));
    VotersAreTallied(st.prevotes, id);
    RecordAddsVoter(st.precommits, own);
    PrecommitsCount(voted, id);
    var e := CheckPrecommits(voted, id);
    CountsAfterPrecommit(st, own, e, Voters(st.prevotes, id), Voters(st.precommits, id) + {st.localId});
    assert CheckPrevotes(st, id) == e.(sent := [own]);
  }

  lemma CheckFollows(st: NodeState, id: string)
    ensures Follows(st, CheckPrevotes(st, id), id, Voters(st.prevotes, id))
  {
    VotersAreTallied(st.prevotes, id);
    if |Voters(st.prevotes, id)| >= Enough(|st.nodes|) {
      OwnPrecommitCounts(st, id);
    } else {
      assert CheckPrevotes(st, id) == Effect(st, [], None);
    }
  }

  lemma FollowsAfterPrevote(before: NodeState, v: Vote, e: Effect, prevoters: set<string>)
    requires Follows(before.(prevotes := Record(before.prevotes, v)), e, v.proposalId, prevoters)
    ensures Follows(before, e, v.proposalId, prevoters)
  {
    if |prevoters| >= Enough(|before.nodes|) {
      CountsAfterPrevote(before, v, e, prevoters, Voters(before.precommits, v.proposalId) + {before.localId});
    } else {
      RecordAddsVoter(before.prevotes, v);
    }
  }

  lemma RecordedVoters(m: map<string, Tally>, v: Vote)
    ensures Voters(Record(m, v), v.proposalId) == Voters(m, v.proposalId) + {v.voterId}
  {
  }

  lemma PrevotesFollow(before: NodeState, v: Vote)
    ensures Follows(before, CheckPrevotes(before.(prevotes := Record(before.prevotes, v)), v.proposalId), v.proposalId,
                    Voters(before.prevotes, v.proposalId) + {v.voterId})
  {
    var st := before.(prevotes := Record(before.prevotes, v));
    CheckFollows(st, v.proposalId);
    RecordedVoters(before.prevotes, v);
    FollowsAfterPrevote(before, v, CheckPrevotes(st, v.proposalId), Voters(st.prevotes, v.proposalId));
  }

  lemma PrecommitCounts(before: NodeState, v: Vote)
    ensures var e := CheckPrecommits(before.(precommits := Record(before.precommits, v)), v.proposalId);
            e.sent == [] && Counts(before, e, v.proposalId, Voters(before.prevotes, v.proposalId),
                                   Voters(before.precommits, v.proposalId) + {v.voterId})
  {
    var st := before.(precommits := Record(before.precommits, v));
    PrecommitsCount(st, v.proposalId);
    RecordedVoters(before.precommits, v);
    CountsAfterPrecommit(before, v, CheckPrecommits(st, v.proposalId), Voters(st.prevotes, v.proposalId),
                         Voters(st.precommits, v.proposalId));
  }

  /** A vote counts once for its voter, whatever its result, and not at all without an ID or a known type. */
  lemma VotesOnTheseTerms(st: NodeState, v: Vote)
    ensures var e, id := OnVote(st, v), v.proposalId;
            if id == "" || v.voteType == OtherType then e == Effect(st, [], None)
            else if v.voteType == Prevote then Follows(st, e, id, Voters(st.prevotes, id) + {v.voterId})
            else
              e.sent == [] && Counts(st, e, id, Voters(st.prevotes, id), Voters(st.precommits, id) + {v.voterId})
  {
    if v.proposalId != "" && v.voteType == Prevote {
      PrevotesFollow(st, v);
    } else if v.proposalId != "" && v.voteType == Precommit {
      PrecommitCounts(st, v);
    }
  }

  /**
   A proposal under a new ID is put on file without votes; then, as for any proposal the node takes up,
   its own prevote is sent and counts like another's.
   */
  lemma ProposalsOnTheseTerms(st: NodeState, p: Proposal)
    requires p.id != "" && p.order.Some? && p.leaderId == st.leader
    ensures var e, own := OnProposal(st, p), Vote(p.id, st.localId, Prevote, true);
            var known := if p.id in st.proposals then st
                         else st.(proposals := st.proposals[p.id := ProposalState(p, false)],
                                  prevotes := st.prevotes[p.id := map[]], precommits := st.precommits[p.id := map[]]);
            e.sent != [] && e.sent[0] == own
            && Follows(known, e.(sent := e.sent[1..]), p.id, Voters(known.prevotes, p.id) + {st.localId})
  {
    var known := if p.id in st.proposals then st else Open(st, p);
    PrevotesFollow(known, Vote(p.id, st.localId, Prevote, true));
    var e := CheckPrevotes(known.(prevotes := Record(known.prevotes, Vote(p.id, st.localId, Prevote, true))), p.id);
    assert OnProposal(st, p).sent[1..] == e.sent;
  }

  /** An election moves the term on by one, wrapping round at 64 bits; without a list of members a node leads itself. */
  lemma ElectsOnTheseTerms(st: NodeState)
    ensures OnElect(st)
            == if st.nodes == [] then st.(leader := st.localId)
               else
                 st.(leader := st.nodes[if st.term < 0 then 0 else st.term % |st.nodes|],
                     term := if st.term == 0x7FFF_FFFF_FFFF_FFFF then -0x8000_0000_0000_0000 else st.term + 1)
  {
  }

  /** The leader puts its own proposal on file under its own name, uncommitted and without votes; nobody else does. */
  lemma ProposesOnTheseTerms(st: NodeState, p: Proposal)
    ensures var e := OnPropose(st, p);
            e.sent == [] && e.commit == None
            && if st.leader != st.localId then e.st == st
               else
                 IsFiled(e.st, p.id) && e.st.proposals[p.id].proposal == p.(leaderId := st.localId)
                 && !IsCommitted(e.st, p.id) && Voters(e.st.prevotes, p.id) == Voters(e.st.precommits, p.id) == {}
                 && e.st == st.(proposals := st.proposals[p.id := e.st.proposals[p.id]], prevotes := e.st.prevotes,
                                precommits := e.st.precommits)
                 && forall x :: x != p.id ==>
                      Voters(e.st.prevotes, x) == Voters(st.prevotes, x)
                      && Voters(e.st.precommits, x) == Voters(st.precommits, x)
  {
  }
}
