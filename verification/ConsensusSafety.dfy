/**
 Safety of the vote over every run of a network of honest and faulty nodes.  Voter IDs are
 authenticated: a vote delivered under an honest member's ID was sent by it, and every other vote
 comes from a faulty member, which may say anything to anyone.
 */
module ConsensusSafety {
  import opened Options
  import opened Consensus

  /** The members, pairwise different, and which of them are honest. */
  datatype Config = Config(members: seq<string>, honest: set<string>)

  function Members(c: Config): set<string> {
    set m | m in c.members
  }

  ghost predicate ValidConfig(c: Config) {
    c.members != []
    && (forall i, j :: 0 <= i < j < |c.members| ==> c.members[i] != c.members[j])
    && c.honest <= Members(c)
    && |Members(c) - c.honest| <= MaxFaulty(|c.members|)
  }

  /** `content` is the proposal the node had on file under the ID when it committed. */
  datatype Commit = Commit(node: string, id: string, content: Option<Proposal>, voters: set<string>)

  /**
   `validated` remembers which honest node accepted which proposal, `prevoted` and `precommitted`
   which one sent which vote, all for good.
   */
  datatype Net = Net(
    nodes: map<string, NodeState>,
    sent: set<Vote>,
    validated: set<(string, Proposal)>,
    prevoted: set<(string, string)>,
    precommitted: set<(string, string)>,
    commits: seq<Commit>)

  datatype Event =
    | DeliverProposal(node: string, proposal: Proposal)
    | DeliverVote(node: string, vote: Vote)
    | Propose(node: string, proposal: Proposal)
    | Elect(node: string)

  /** A vote that can reach a node: an honest member's own, or anything from a faulty member. */
  ghost predicate Deliverable(c: Config, net: Net, v: Vote) {
    v in net.sent || v.voterId in Members(c) - c.honest
  }

  /**
   A leader proposes an order, and not under an ID it has committed.  The code names a proposal after
   the current nanosecond, so its IDs are new altogether.
   */
  ghost predicate Enabled(c: Config, net: Net, e: Event) {
    e.node in net.nodes
    && (e.DeliverVote? ==> Deliverable(c, net, e.vote))
    && (e.Propose? ==>
          e.proposal.id != "" && e.proposal.order.Some? && !Committed(net.nodes[e.node], e.proposal.id))
  }

  function EffectOf(st: NodeState, e: Event): Effect {
    match e
    case DeliverProposal(_, p) => OnProposal(st, p)
    case DeliverVote(_, v) => OnVote(st, v)
    case Propose(_, p) => OnPropose(st, p)
    case Elect(_) => Effect(OnElect(st), [], None)
  }

  function EventId(e: Event): string {
    match e
    case DeliverProposal(_, p) => p.id
    case DeliverVote(_, v) => v.proposalId
    case Propose(_, p) => p.id
    case Elect(_) => ""
  }

  function Filed(st: NodeState, id: string): Option<Proposal> {
    if id in st.proposals then Some(st.proposals[id].proposal) else None
  }

  /** The node finds nothing wrong with the proposal it is handed. */
  predicate Validates(net: Net, e: Event)
    requires e.node in net.nodes
  {
    e.DeliverProposal? && Acceptable(net.nodes[e.node], e.proposal)
  }

  function Step(net: Net, e: Event): Net
    requires e.node in net.nodes
  {
    var r := EffectOf(net.nodes[e.node], e);
    Net(
      net.nodes[e.node := r.st],
      net.sent + (set v | v in r.sent),
      net.validated + (if Validates(net, e) then {(e.node, e.proposal)} else {}),
      net.prevoted + (set v | v in r.sent && v.voteType == Prevote :: (v.voterId, v.proposalId)),
      net.precommitted + (set v | v in r.sent && v.voteType == Precommit :: (v.voterId, v.proposalId)),
      net.commits
      + if r.commit.Some? then [Commit(e.node, EventId(e), Filed(r.st, EventId(e)), r.commit.value)] else [])
  }

  function Initial(c: Config, id: string): NodeState {
    NodeState(id, c.members, "", 0, map[], map[], map[])
  }

  function Start(c: Config): Net {
    Net(map id | id in c.honest :: Initial(c, id), {}, {}, {}, {}, [])
  }

  ghost predicate IsRun(c: Config, nets: seq<Net>, events: seq<Event>) {
    |nets| == |events| + 1 && nets[0] == Start(c)
    && forall i :: 0 <= i < |events| ==> Enabled(c, nets[i], events[i]) && nets[i + 1] == Step(nets[i], events[i])
  }

  // ----- counting -----

  lemma {:induction false} MembersCount(s: seq<string>)
    requires forall i, j :: 0 <= i < j < |s| ==> s[i] != s[j]
    ensures |set m | m in s| == |s|
  {
    if s != [] {
      var s', last := s[..|s| - 1], s[|s| - 1];
      MembersCount(s');
      assert (set m | m in s) == (set m | m in s') + {last};
    }
  }

  lemma SubsetSize<T>(a: set<T>, b: set<T>)
    requires a <= b
    ensures |a| <= |b|
  {
    assert b == a + (b - a);
  }

  /** Of any 2f+1 members at least f+1 are honest. */
  lemma HonestInQuorum(c: Config, q: set<string>)
    requires ValidConfig(c) && q <= Members(c) && |q| >= QuorumSize(|c.members|)
    ensures |q * c.honest| >= MaxFaulty(|c.members|) + 1
  {
    assert q == (q * c.honest) + (q - c.honest);
    SubsetSize(q - c.honest, Members(c) - c.honest);
  }

  /** Any two sets of members of quorum size share at least 2(2f+1) - n of them. */
  lemma QuorumsOverlap(c: Config, q: set<string>, r: set<string>)
    requires ValidConfig(c) && q <= Members(c) && r <= Members(c)
    requires |q| >= QuorumSize(|c.members|) && |r| >= QuorumSize(|c.members|)
    ensures |q * r| >= 2 * QuorumSize(|c.members|) - |c.members|
    ensures |c.members| % 3 == 1 ==> |q * r| >= MaxFaulty(|c.members|) + 1
  {
    MembersCount(c.members);
    SubsetSize(q + r, Members(c));
    assert |q + r| == |q| + |r| - |q * r|;
  }

  function Interval(lo: int, hi: int): set<int>
    decreases hi - lo
  {
    if hi <= lo then {} else Interval(lo, hi - 1) + {hi - 1}
  }

  lemma {:induction false} IntervalMembers(lo: int, hi: int)
    ensures forall i :: i in Interval(lo, hi) <==> lo <= i < hi
    decreases hi - lo
  {
    if lo < hi {
      IntervalMembers(lo, hi - 1);
    }
  }

  lemma {:induction false} IntervalSize(lo: int, hi: int)
    requires lo <= hi
    ensures |Interval(lo, hi)| == hi - lo
    decreases hi - lo
  {
    if lo < hi {
      IntervalSize(lo, hi - 1);
      IntervalMembers(lo, hi - 1);
    }
  }

  ghost predicate QuorumPair(n: nat, q: set<int>, r: set<int>) {
    q <= Interval(0, n) && r <= Interval(0, n) && |q| == QuorumSize(n) && |r| == QuorumSize(n)
  }

  lemma PairOverlap(n: nat, q: set<int>, r: set<int>)
    requires QuorumPair(n, q, r)
    ensures |q * r| >= 2 * QuorumSize(n) - n
  {
    IntervalSize(0, n);
    SubsetSize(q + r, Interval(0, n));
    assert |q + r| == |q| + |r| - |q * r|;
  }

  lemma IntervalsMeet(n: int, k: int)
    requires 0 <= k <= n
    ensures Interval(0, k) <= Interval(0, n) && Interval(n - k, n) <= Interval(0, n)
    ensures Interval(0, k) * Interval(n - k, n) == Interval(n - k, k)
  {
    IntervalMembers(0, n);
    IntervalMembers(0, k);
    IntervalMembers(n - k, n);
    IntervalMembers(n - k, k);
  }

  /** The first and the last 2f+1 of n nodes: the least overlap there is. */
  lemma LeastOverlap(n: nat) returns (q: set<int>, r: set<int>)
    requires n > 0
    ensures QuorumPair(n, q, r) && |q * r| == if 2 * QuorumSize(n) >= n then 2 * QuorumSize(n) - n else 0
  {
    var k := QuorumSize(n);
    q, r := Interval(0, k), Interval(n - k, n);
    IntervalSize(0, k);
    IntervalSize(n - k, n);
    IntervalsMeet(n, k);
    if n - k <= k {
      IntervalSize(n - k, k);
    }
  }

  /** Quorums overlap in more members than can be faulty for n = 3f+1 and for no other n. */
  lemma OverlapNeedsThreeFPlusOne(n: nat)
    requires n > 0
    ensures n % 3 == 1 <==> forall q, r :: QuorumPair(n, q, r) ==> |q * r| >= MaxFaulty(n) + 1
  {
    forall q, r | QuorumPair(n, q, r)
      ensures |q * r| >= 2 * QuorumSize(n) - n
    {
      PairOverlap(n, q, r);
    }
    var q, r := LeastOverlap(n);
    assert QuorumPair(n, q, r);
  }

  // ----- the invariant -----

  /** The honest nodes that prevoted a proposal ID. */
  function HonestPrevoters(c: Config, net: Net, id: string): set<string> {
    set j | j in c.honest && (j, id) in net.prevoted
  }

  ghost predicate Backed(c: Config, net: Net, id: string) {
    |HonestPrevoters(c, net, id)| >= MaxFaulty(|c.members|) + 1
  }

  /** A tally holds members only, and under an honest ID only what that member sent. */
  ghost predicate TallyInv(c: Config, t: Tally, id: string, history: set<(string, string)>) {
    forall v :: v in t ==> v in Members(c) && (v in c.honest ==> (v, id) in history)
  }

  ghost predicate NodeInv(c: Config, net: Net, i: string, st: NodeState) {
    st.localId == i && st.nodes == c.members
    && Tallies(c, st.prevotes, net.prevoted) && Tallies(c, st.precommits, net.precommitted)
  }

  /** A commit on record: flagged at its node, carried by a member quorum, backed by honest prevotes. */
  ghost predicate CommitOk(c: Config, net: Net, m: Commit) {
    m.node in net.nodes && Committed(net.nodes[m.node], m.id)
    && m.voters <= Members(c) && |m.voters| >= QuorumSize(|c.members|) && Backed(c, net, m.id)
  }

  ghost predicate CommitInv(c: Config, net: Net) {
    (forall m :: m in net.commits ==> CommitOk(c, net, m))
    && forall k, l :: 0 <= k < l < |net.commits| ==>
         net.commits[k].node != net.commits[l].node || net.commits[k].id != net.commits[l].id
  }

  /** What honest members sent is on record, and no precommit lacks its prevotes. */
  ghost predicate VotesOk(c: Config, net: Net) {
    (forall v :: v in net.sent ==>
       v.voterId in c.honest
       && (v.voteType == Prevote ==> (v.voterId, v.proposalId) in net.prevoted)
       && (v.voteType == Precommit ==> (v.voterId, v.proposalId) in net.precommitted))
    && forall k, id :: (k, id) in net.precommitted ==> k in c.honest && Backed(c, net, id)
  }

  ghost predicate NetInv(c: Config, net: Net) {
    net.nodes.Keys == c.honest
    && (forall i :: i in net.nodes ==> NodeInv(c, net, i, net.nodes[i]))
    && VotesOk(c, net) && CommitInv(c, net)
  }

  lemma TallyMore(c: Config, t: Tally, id: string, h: set<(string, string)>, h': set<(string, string)>)
    requires TallyInv(c, t, id, h) && h <= h'
    ensures TallyInv(c, t, id, h')
  {
  }

  lemma BackedMore(c: Config, net: Net, net': Net, id: string)
    requires Backed(c, net, id) && net.prevoted <= net'.prevoted
    ensures Backed(c, net', id)
  {
    SubsetSize(HonestPrevoters(c, net, id), HonestPrevoters(c, net', id));
  }

  /** A prevote quorum is backed by f+1 honest prevotes. */
  lemma QuorumBacks(c: Config, net: Net, t: Tally, id: string)
    requires ValidConfig(c) && TallyInv(c, t, id, net.prevoted) && |t| >= QuorumSize(|c.members|)
    ensures Backed(c, net, id)
  {
    HonestInQuorum(c, t.Keys);
    SubsetSize(t.Keys * c.honest, HonestPrevoters(c, net, id));
  }

  /** A precommit quorum contains an honest precommit, which was backed when it was sent. */
  lemma PrecommitsBack(c: Config, net: Net, t: Tally, id: string)
    requires ValidConfig(c) && TallyInv(c, t, id, net.precommitted) && |t| >= QuorumSize(|c.members|)
    requires forall k :: (k, id) in net.precommitted ==> Backed(c, net, id)
    ensures Backed(c, net, id)
  {
    HonestInQuorum(c, t.Keys);
    var k :| k in t.Keys * c.honest;
    assert (k, id) in net.precommitted;
  }

  // ----- one handler call -----

  ghost predicate Tallies(c: Config, m: map<string, Tally>, history: set<(string, string)>) {
    forall id :: TallyInv(c, TallyOf(m, id), id, history)
  }

  lemma TalliesMore(c: Config, m: map<string, Tally>, h: set<(string, string)>, h': set<(string, string)>)
    requires Tallies(c, m, h) && h <= h'
    ensures Tallies(c, m, h')
  {
    forall id
      ensures TallyInv(c, TallyOf(m, id), id, h')
    {
      TallyMore(c, TallyOf(m, id), id, h, h');
    }
  }

  lemma RecordKeepsTallies(c: Config, m: map<string, Tally>, v: Vote, h: set<(string, string)>)
    requires Tallies(c, m, h)
    requires v.voterId in Members(c) && (v.voterId in c.honest ==> (v.voterId, v.proposalId) in h)
    ensures Tallies(c, Record(m, v), h)
  {
    forall id
      ensures TallyInv(c, TallyOf(Record(m, v), id), id, h)
    {
      assert TallyInv(c, TallyOf(m, id), id, h);
    }
  }

  lemma PrecommitsSound(c: Config, net: Net, st: NodeState, id: string)
    requires ValidConfig(c) && st.nodes == c.members && Tallies(c, st.precommits, net.precommitted)
    requires forall k :: (k, id) in net.precommitted ==> Backed(c, net, id)
    ensures var r := CheckPrecommits(st, id);
            r.commit.Some? ==>
              r.commit.value <= Members(c) && |r.commit.value| >= QuorumSize(|c.members|) && Backed(c, net, id)
              && id in st.proposals && !Committed(st, id) && Committed(r.st, id)
  {
    var t := TallyOf(st.precommits, id);
    assert TallyInv(c, t, id, net.precommitted);
    if |t| >= QuorumSize(|c.members|) {
      PrecommitsBack(c, net, t, id);
    }
  }

  /** `net` already remembers the precommit this call sends, if it sends one. */
  lemma PrevotesSound(c: Config, net: Net, i: string, st: NodeState, id: string)
    requires ValidConfig(c) && st.nodes == c.members && st.localId == i && i in c.honest
    requires Tallies(c, st.prevotes, net.prevoted) && Tallies(c, st.precommits, net.precommitted)
    requires CheckPrevotes(st, id).sent != [] ==> (i, id) in net.precommitted
    requires forall k :: (k, id) in net.precommitted && k != i ==> Backed(c, net, id)
    requires CheckPrevotes(st, id).sent == [] && (i, id) in net.precommitted ==> Backed(c, net, id)
    ensures var r := CheckPrevotes(st, id);
            Tallies(c, r.st.precommits, net.precommitted)
            && (r.sent != [] ==> Backed(c, net, id))
            && (r.commit.Some? ==>
                  r.commit.value <= Members(c) && |r.commit.value| >= QuorumSize(|c.members|)
                  && id in st.proposals && !Committed(st, id) && Committed(r.st, id))
  {
    var t := TallyOf(st.prevotes, id);
    assert TallyInv(c, t, id, net.prevoted);
    if |t| >= QuorumSize(|c.members|) {
      QuorumBacks(c, net, t, id);
      var vote := Vote(id, i, Precommit, true);
      RecordKeepsTallies(c, st.precommits, vote, net.precommitted);
      PrecommitsSound(c, net, st.(precommits := Record(st.precommits, vote)), id);
    }
  }

  /** Everything a handler's effect must satisfy for the network to stay safe. */
  ghost predicate Sound(c: Config, net: Net, i: string, id: string, st: NodeState, r: Effect) {
    r.st.localId == i && r.st.nodes == c.members
    && Tallies(c, r.st.prevotes, net.prevoted) && Tallies(c, r.st.precommits, net.precommitted)
    && (forall v :: v in r.sent ==> v.voterId == i && v.proposalId == id && v.voteType != OtherType)
    && (forall v :: v in r.sent && v.voteType == Precommit ==> Backed(c, net, id))
    && (r.commit.Some? ==>
          r.commit.value <= Members(c) && |r.commit.value| >= QuorumSize(|c.members|) && Backed(c, net, id)
          && !Committed(st, id) && Committed(r.st, id))
  }

  /** What is known of a node and the histories before the call, and of the histories after it. */
  ghost predicate Ready(c: Config, before: Net, after: Net, i: string, st: NodeState) {
    ValidConfig(c) && i in c.honest && st.localId == i && st.nodes == c.members
    && Tallies(c, st.prevotes, before.prevoted) && Tallies(c, st.precommits, before.precommitted)
    && before.prevoted <= after.prevoted && before.precommitted <= after.precommitted
    && forall k, id :: (k, id) in before.precommitted ==> Backed(c, after, id)
  }

  ghost predicate Grows(before: Net, after: Net, i: string, id: string, r: Effect) {
    (forall v :: v in r.sent && v.voteType == Prevote ==> (i, id) in after.prevoted)
    && (forall v :: v in r.sent && v.voteType == Precommit ==> (i, id) in after.precommitted)
    && (forall k, x :: (k, x) in after.precommitted ==>
          (k, x) in before.precommitted
          || (k == i && x == id && exists v :: v in r.sent && v.voteType == Precommit))
  }

  lemma ProposalSound(c: Config, before: Net, after: Net, i: string, st: NodeState, p: Proposal)
    requires Ready(c, before, after, i, st) && Grows(before, after, i, p.id, OnProposal(st, p))
    ensures Sound(c, after, i, p.id, st, OnProposal(st, p))
  {
    TalliesMore(c, st.prevotes, before.prevoted, after.prevoted);
    TalliesMore(c, st.precommits, before.precommitted, after.precommitted);
    if Acceptable(st, p) {
      var known := if p.id in st.proposals then st else Open(st, p);
      OpenKeepsTallies(c, st.prevotes, p.id, after.prevoted);
      OpenKeepsTallies(c, st.precommits, p.id, after.precommitted);
      KnownSound(c, before, after, i, known, p);
    }
  }

  lemma FirstAndRest(vote: Vote, rest: seq<Vote>)
    ensures vote in [vote] + rest && forall v :: v in rest ==> v in [vote] + rest
  {
  }

  /** The part of handling a proposal that follows once the proposal is on file. */
  lemma KnownSound(c: Config, before: Net, after: Net, i: string, known: NodeState, p: Proposal)
    requires ValidConfig(c) && i in c.honest && known.localId == i && known.nodes == c.members
    requires Tallies(c, known.prevotes, after.prevoted) && Tallies(c, known.precommits, after.precommitted)
    requires forall k, id :: (k, id) in before.precommitted ==> Backed(c, after, id)
    requires var vote := Vote(p.id, i, Prevote, true);
             var e := CheckPrevotes(known.(prevotes := Record(known.prevotes, vote)), p.id);
             Grows(before, after, i, p.id, e.(sent := [vote] + e.sent))
    ensures var vote := Vote(p.id, i, Prevote, true);
            var e := CheckPrevotes(known.(prevotes := Record(known.prevotes, vote)), p.id);
            Sound(c, after, i, p.id, known, e.(sent := [vote] + e.sent))
  {
    var vote := Vote(p.id, i, Prevote, true);
    var voted := known.(prevotes := Record(known.prevotes, vote));
    var e := CheckPrevotes(voted, p.id);
    FirstAndRest(vote, e.sent);
    RecordKeepsTallies(c, known.prevotes, vote, after.prevoted);
    PrevotesSound(c, after, i, voted, p.id);
  }

  lemma OpenKeepsTallies(c: Config, m: map<string, Tally>, id: string, h: set<(string, string)>)
    requires Tallies(c, m, h)
    ensures Tallies(c, m[id := map[]], h)
  {
    var m' := m[id := map[]];
    forall x
      ensures TallyInv(c, TallyOf(m', x), x, h)
    {
      assert TallyInv(c, TallyOf(m, x), x, h);
    }
  }

  lemma VoteSound(c: Config, before: Net, after: Net, i: string, st: NodeState, v: Vote)
    requires Ready(c, before, after, i, st) && Grows(before, after, i, v.proposalId, OnVote(st, v))
    requires v.voterId in Members(c)
    requires v.voterId in c.honest && v.voteType == Prevote ==> (v.voterId, v.proposalId) in before.prevoted
    requires v.voterId in c.honest && v.voteType == Precommit ==> (v.voterId, v.proposalId) in before.precommitted
    ensures Sound(c, after, i, v.proposalId, st, OnVote(st, v))
  {
    TalliesMore(c, st.prevotes, before.prevoted, after.prevoted);
    TalliesMore(c, st.precommits, before.precommitted, after.precommitted);
    if v.proposalId != "" && v.voteType == Prevote {
      RecordKeepsTallies(c, st.prevotes, v, after.prevoted);
      PrevoteSound(c, before, after, i, st.(prevotes := Record(st.prevotes, v)), v.proposalId);
    } else if v.proposalId != "" && v.voteType == Precommit {
      RecordKeepsTallies(c, st.precommits, v, after.precommitted);
      PrecommitsSound(c, after, st.(precommits := Record(st.precommits, v)), v.proposalId);
    }
  }

  /** The part of handling a prevote that follows once it is recorded. */
  lemma PrevoteSound(c: Config, before: Net, after: Net, i: string, voted: NodeState, id: string)
    requires ValidConfig(c) && i in c.honest && voted.localId == i && voted.nodes == c.members
    requires Tallies(c, voted.prevotes, after.prevoted) && Tallies(c, voted.precommits, after.precommitted)
    requires forall k, x :: (k, x) in before.precommitted ==> Backed(c, after, x)
    requires Grows(before, after, i, id, CheckPrevotes(voted, id))
    ensures Sound(c, after, i, id, voted, CheckPrevotes(voted, id))
  {
    var e := CheckPrevotes(voted, id);
    if e.sent != [] {
      assert e.sent[0] in e.sent && e.sent[0].voteType == Precommit;
    }
    PrevotesSound(c, after, i, voted, id);
  }

  lemma ProposeSound(c: Config, before: Net, after: Net, i: string, st: NodeState, p: Proposal)
    requires Ready(c, before, after, i, st) && !Committed(st, p.id)
    ensures Sound(c, after, i, p.id, st, OnPropose(st, p))
  {
    TalliesMore(c, st.prevotes, before.prevoted, after.prevoted);
    TalliesMore(c, st.precommits, before.precommitted, after.precommitted);
    OpenKeepsTallies(c, st.prevotes, p.id, after.prevoted);
    OpenKeepsTallies(c, st.precommits, p.id, after.precommitted);
  }

  lemma ElectSound(c: Config, before: Net, after: Net, i: string, st: NodeState)
    requires Ready(c, before, after, i, st)
    ensures Sound(c, after, i, "", st, Effect(OnElect(st), [], None))
  {
    TalliesMore(c, st.prevotes, before.prevoted, after.prevoted);
    TalliesMore(c, st.precommits, before.precommitted, after.precommitted);
  }

  // ----- one step of the network -----

  lemma StepSound(c: Config, net: Net, e: Event)
    requires ValidConfig(c) && NetInv(c, net) && Enabled(c, net, e)
    ensures Sound(c, Step(net, e), e.node, EventId(e), net.nodes[e.node], EffectOf(net.nodes[e.node], e))
  {
    var after, st := Step(net, e), net.nodes[e.node];
    forall k, id | (k, id) in net.precommitted
      ensures Backed(c, after, id)
    {
      BackedMore(c, net, after, id);
    }
    SentByNode(st, e);
    match e
    case DeliverProposal(i, p) => ProposalSound(c, net, after, i, st, p);
    case DeliverVote(i, v) => VoteSound(c, net, after, i, st, v);
    case Propose(i, p) => ProposeSound(c, net, after, i, st, p);
    case Elect(i) => ElectSound(c, net, after, i, st);
  }

  /** A handler sends votes under the node's own name and about the proposal at hand. */
  lemma SentByNode(st: NodeState, e: Event)
    ensures forall v :: v in EffectOf(st, e).sent ==> v.voterId == st.localId && v.proposalId == EventId(e)
  {
  }

  /** A handler other than a repeated proposal never lowers a commit flag. */
  lemma EventSticks(c: Config, net: Net, e: Event, x: string)
    requires Enabled(c, net, e) && Committed(net.nodes[e.node], x)
    ensures Committed(Step(net, e).nodes[e.node], x)
  {
    match e
    case DeliverProposal(i, p) => ProposalSticks(net.nodes[i], p, x);
    case DeliverVote(i, v) => VoteSticks(net.nodes[i], v, x);
    case Propose(i, p) =>
    case Elect(i) =>
  }

  /** A commit stays valid while histories grow and its node's flag stays up. */
  lemma CommitStays(c: Config, net: Net, after: Net, m: Commit)
    requires CommitOk(c, net, m) && net.prevoted <= after.prevoted
    requires m.node in after.nodes && Committed(after.nodes[m.node], m.id)
    ensures CommitOk(c, after, m)
  {
    BackedMore(c, net, after, m.id);
  }

  /** One more commit, of a proposal its node had not committed, keeps commits unique. */
  lemma CommitAdded(c: Config, net: Net, after: Net, m: Commit)
    requires CommitInv(c, net) && m.node in net.nodes && !Committed(net.nodes[m.node], m.id)
    requires after.commits == net.commits + [m] && forall x :: x in net.commits ==> CommitOk(c, after, x)
    requires CommitOk(c, after, m)
    ensures CommitInv(c, after)
  {
    forall k | 0 <= k < |net.commits|
      ensures net.commits[k].node != m.node || net.commits[k].id != m.id
    {
      assert net.commits[k] in net.commits;
    }
  }

  /** The effect of one call, `r` on proposal `id` at `node`, keeps the record of commits valid. */
  lemma CommitsKeep(c: Config, net: Net, after: Net, node: string, id: string, r: Effect)
    requires CommitInv(c, net) && node in net.nodes && after.nodes == net.nodes[node := r.st]
    requires net.prevoted <= after.prevoted
    requires after.commits
             == net.commits + if r.commit.Some? then [Commit(node, id, Filed(r.st, id), r.commit.value)] else []
    requires forall x :: Committed(net.nodes[node], x) ==> Committed(r.st, x)
    requires r.commit.Some? ==>
               r.commit.value <= Members(c) && |r.commit.value| >= QuorumSize(|c.members|) && Backed(c, after, id)
               && !Committed(net.nodes[node], id) && Committed(r.st, id)
    ensures CommitInv(c, after)
  {
    forall m | m in net.commits
      ensures CommitOk(c, after, m)
    {
      CommitStays(c, net, after, m);
    }
    if r.commit.Some? {
      CommitAdded(c, net, after, Commit(node, id, Filed(r.st, id), r.commit.value));
    } else {
      assert after.commits == net.commits;
    }
  }

  lemma OtherNodesKeep(c: Config, net: Net, after: Net, node: string)
    requires net.prevoted <= after.prevoted && net.precommitted <= after.precommitted
    requires forall i :: i in net.nodes ==> NodeInv(c, net, i, net.nodes[i])
    ensures forall i :: i in net.nodes && i != node ==> NodeInv(c, after, i, net.nodes[i])
  {
    forall i | i in net.nodes && i != node
      ensures NodeInv(c, after, i, net.nodes[i])
    {
      TalliesMore(c, net.nodes[i].prevotes, net.prevoted, after.prevoted);
      TalliesMore(c, net.nodes[i].precommits, net.precommitted, after.precommitted);
    }
  }

  lemma StepKeepsCommits(c: Config, net: Net, e: Event)
    requires ValidConfig(c) && NetInv(c, net) && Enabled(c, net, e)
    ensures CommitInv(c, Step(net, e))
  {
    var after := Step(net, e);
    StepSound(c, net, e);
    forall x | Committed(net.nodes[e.node], x)
      ensures Committed(after.nodes[e.node], x)
    {
      EventSticks(c, net, e, x);
    }
    CommitsKeep(c, net, after, e.node, EventId(e), EffectOf(net.nodes[e.node], e));
  }

  lemma StepKeepsVotes(c: Config, net: Net, e: Event)
    requires ValidConfig(c) && NetInv(c, net) && Enabled(c, net, e)
    ensures VotesOk(c, Step(net, e))
  {
    var after := Step(net, e);
    StepSound(c, net, e);
    forall k, id | (k, id) in after.precommitted
      ensures k in c.honest && Backed(c, after, id)
    {
      if (k, id) in net.precommitted {
        BackedMore(c, net, after, id);
      }
    }
  }

  lemma StepKeeps(c: Config, net: Net, e: Event)
    requires ValidConfig(c) && NetInv(c, net) && Enabled(c, net, e)
    ensures NetInv(c, Step(net, e))
  {
    StepKeepsCommits(c, net, e);
    StepKeepsVotes(c, net, e);
    StepSound(c, net, e);
    OtherNodesKeep(c, net, Step(net, e), e.node);
  }

  // ----- whole runs -----

  lemma {:induction false} RunKeeps(c: Config, nets: seq<Net>, events: seq<Event>)
    requires ValidConfig(c) && IsRun(c, nets, events)
    ensures NetInv(c, nets[|events|])
  {
    if |events| > 0 {
      var n := |events| - 1;
      var nets', events' := nets[..|events|], events[..n];
      assert forall i :: 0 <= i < n ==> Enabled(c, nets[i], events[i]) && nets[i + 1] == Step(nets[i], events[i]);
      assert IsRun(c, nets', events');
      RunKeeps(c, nets', events');
      StepKeeps(c, nets[n], events[n]);
    }
  }

  lemma CommitsDoNotRepeat(c: Config, net: Net, k: nat, l: nat)
    requires CommitInv(c, net) && k < |net.commits| && l < |net.commits|
    ensures CommitOk(c, net, net.commits[k]) && CommitOk(c, net, net.commits[l])
    ensures net.commits[k].node == net.commits[l].node && net.commits[k].id == net.commits[l].id ==> k == l
  {
  }

  /**
   In every run: an honest node commits an ID at most once; when it does, at least f+1 honest
   members have prevoted that ID; and with n = 3f+1 members the voters behind any two commits, of
   whatever IDs at whatever nodes, share at least f+1 members.  ConsensusContent says what this
   means for the proposals that go by these IDs.
   */
  lemma CommitsAreSafe(c: Config, nets: seq<Net>, events: seq<Event>, k: nat, l: nat)
    requires ValidConfig(c) && IsRun(c, nets, events)
    requires k < |nets[|events|].commits| && l < |nets[|events|].commits|
    ensures var net := nets[|events|];
            var a, b := net.commits[k], net.commits[l];
            a.node in c.honest
            && |HonestPrevoters(c, net, a.id)| >= MaxFaulty(|c.members|) + 1
            && (a.node == b.node && a.id == b.id ==> k == l)
            && (|c.members| % 3 == 1 ==> |a.voters * b.voters| >= MaxFaulty(|c.members|) + 1)
  {
    RunKeeps(c, nets, events);
    var net := nets[|events|];
    CommitsDoNotRepeat(c, net, k, l);
    QuorumsOverlap(c, net.commits[k].voters, net.commits[l].voters);
  }
}
