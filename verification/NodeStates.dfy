/** The state shown for a node, from the time of its last valid report. */
module NodeStates {
  import opened Common

  datatype NodeState = Pending | Online | Delayed | Offline

  const ONLINE_FOR: Instant := 90_000_000_000
  const DELAYED_FOR: Instant := 180_000_000_000

  function NodeStateAt(last: Option<Instant>, at: Instant, revoked: bool): NodeState {
    if revoked then Offline
    else if last.None? then Pending
    else if at - last.value <= ONLINE_FOR then Online
    else if at - last.value <= DELAYED_FOR then Delayed
    else Offline
  }

  function Severity(state: NodeState): nat {
    match state case Pending => 0 case Online => 0 case Delayed => 1 case Offline => 2
  }

  /** Without a new report a node never looks better later, and being revoked never makes it look better. */
  lemma StateOnlyDegrades(last: Option<Instant>, earlier: Instant, later: Instant, wasRevoked: bool, isRevoked: bool)
    requires earlier <= later && (wasRevoked ==> isRevoked)
    ensures Severity(NodeStateAt(last, earlier, wasRevoked)) <= Severity(NodeStateAt(last, later, isRevoked))
    ensures NodeStateAt(last, later, isRevoked) == Pending <==> !isRevoked && last.None?
  {
  }

  /** An enabled node is online for ninety seconds after a report, delayed for ninety more, and then offline. */
  lemma StateFollowsAge(last: Instant, age: Instant)
    ensures NodeStateAt(Some(last), last + age, true) == Offline
    ensures age <= 90_000_000_000 ==> NodeStateAt(Some(last), last + age, false) == Online
    ensures 90_000_000_000 < age <= 180_000_000_000 ==> NodeStateAt(Some(last), last + age, false) == Delayed
    ensures age > 180_000_000_000 ==> NodeStateAt(Some(last), last + age, false) == Offline
  {
  }
}
