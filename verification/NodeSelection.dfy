/** Choosing a cluster node from gossip: filter the members, then take a random minimum. */
module NodeSelection {
  import opened Wrappers
  import opened CoreTypes

  datatype VNodeState =
    | Initializing | DiscoverLeader | Unknown | PreReplica | CatchingUp | Clone | Follower | PreLeader | Leader
    | Manager | ShuttingDown | Shutdown | ReadOnlyLeaderLess | PreReadOnlyReplica | ReadOnlyReplica | ResigningLeader

  datatype NodePreference = PreferLeader | PreferFollower | PreferRandom | PreferReadOnlyReplica {
    predicate Matches(state: VNodeState) {
      match this
      case PreferLeader => state.Leader?
      case PreferFollower => state.Follower?
      case PreferReadOnlyReplica => state.ReadOnlyReplica? || state.ReadOnlyLeaderLess? || state.PreReadOnlyReplica?
      case PreferRandom => false
    }
  }

  datatype MemberInfo = MemberInfo(endpoint: Endpoint, state: VNodeState, isAlive: bool)

  predicate Candidate(member: MemberInfo) {
    member.isAlive && !(member.state.Manager? || member.state.ShuttingDown? || member.state.Shutdown?)
  }

  predicate Preferred(preference: NodePreference, member: MemberInfo) {
    Candidate(member) && preference.Matches(member.state)
  }

  /** The states each preference asks for, listed; a random choice prefers none. */
  function Asked(preference: NodePreference): set<VNodeState> {
    match preference
    case PreferLeader => {Leader}
    case PreferFollower => {Follower}
    case PreferReadOnlyReplica => {ReadOnlyLeaderLess, PreReadOnlyReplica, ReadOnlyReplica}
    case PreferRandom => {}
  }

  datatype Ordering = Less | Greater

  /** The comparison: `even` is the parity of the random word drawn, where one is drawn. */
  function Compare(preference: NodePreference, a: MemberInfo, b: MemberInfo, even: bool): Ordering {
    if preference.PreferRandom? then
      if even then Greater else Less
    else if preference.Matches(a.state) && preference.Matches(b.state) then
      if even then Less else Greater
    else if preference.Matches(a.state) && !preference.Matches(b.state) then Less
    else Greater
  }

  /** It is not an order: two members without the preference each come after the other. */
  lemma ComparisonIsNotAnOrder(preference: NodePreference, a: MemberInfo, b: MemberInfo, even: bool)
    requires !preference.PreferRandom? && !preference.Matches(a.state) && !preference.Matches(b.state)
    ensures Compare(preference, a, b, even) == Greater && Compare(preference, b, a, even) == Greater
  {
  }

  /** The better of two under a minimum that may hold the candidate against the best or the best against it. */
  function Min(preference: NodePreference, best: MemberInfo, next: MemberInfo, even: bool, swapped: bool): MemberInfo {
    if swapped then
      if Compare(preference, next, best, even) == Less then next else best
    else
      if Compare(preference, best, next, even) == Greater then next else best
  }

  /**
   For every member list, every random draw and either way the minimum calls its
   comparison: no result exactly when nobody is eligible, otherwise an eligible
   member, and one with the preference whenever any eligible member has it.
   */
  method DetermineBestNode(preference: NodePreference, members: seq<MemberInfo>, swapped: bool)
    returns (node: Option<Endpoint>, ghost chosen: nat)
    ensures node.None? <==> forall i | 0 <= i < |members| :: !Candidate(members[i])
    ensures node.Some? ==>
      chosen < |members| && Candidate(members[chosen]) && node.value == members[chosen].endpoint
    ensures node.Some? ==>
      members[chosen].isAlive && members[chosen].state !in {Manager, ShuttingDown, Shutdown}
    ensures node.Some? && (exists i :: 0 <= i < |members| && Preferred(preference, members[i])) ==>
      Preferred(preference, members[chosen])
    ensures node.None? ==>
      forall i | 0 <= i < |members| && members[i].isAlive :: members[i].state in {Manager, ShuttingDown, Shutdown}
    ensures node.Some? ==>
      forall i | 0 <= i < |members| && members[i].isAlive && members[i].state in Asked(preference) ::
        members[chosen].state in Asked(preference)
  {
    var best: Option<MemberInfo> := None;
    chosen := 0;
    for i := 0 to |members|
      invariant best.None? <==> forall j | 0 <= j < i :: !Candidate(members[j])
      invariant best.Some? ==> chosen < i && best.value == members[chosen] && Candidate(best.value)
      invariant best.Some? && (exists j :: 0 <= j < i && Preferred(preference, members[j])) ==>
        Preferred(preference, best.value)
    {
      if Candidate(members[i]) {
        if best.None? {
          best, chosen := Some(members[i]), i;
        } else {
          var even: bool := *;
          var minimum := Min(preference, best.value, members[i], even, swapped);
          chosen := if minimum == best.value then chosen else i;
          best := Some(minimum);
        }
      }
    }
    node := if best.Some? then Some(best.value.endpoint) else None;
  }
}
