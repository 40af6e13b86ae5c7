/**
 * The roster filter at the end of the active-user scan: from the platform's
 * user roster keep the entries whose name is in the active set, or, in inverse
 * mode, those whose name is not.
 */
module Roster {
  import opened Wrappers

  /**
   * A roster entry. `name` is None when the entry has no `name` field; the
   * entry's other fields are carried through unchanged.
   */
  datatype User = User(name: Option<string>, fields: map<string, string>)

  /** An entry is active when it has a name and that name is in the active set. */
  predicate IsActive(u: User, active: set<string>)
  {
    u.name.Some? && u.name.value in active
  }

  /** `a` is `b` with some entries left out, the rest in their order in `b`. */
  predicate IsSubsequence(a: seq<User>, b: seq<User>)
    decreases |b|
  {
    if b == [] then a == []
    else IsSubsequence(a, b[1..]) || (a != [] && a[0] == b[0] && IsSubsequence(a[1..], b[1..]))
  }

  /**
   * The filter: the active entries, or the inactive ones when `inverse` is
   * set, in roster order. An entry without a name is never active.
   */
  function FilterRoster(roster: seq<User>, active: set<string>, inverse: bool): (kept: seq<User>)
    ensures forall u :: u in kept <==> u in roster && IsActive(u, active) != inverse
    ensures IsSubsequence(kept, roster)
    decreases |roster|
  {
    if roster == [] then []
    else
      var rest := FilterRoster(roster[1..], active, inverse);
      assert forall u :: u in roster <==> u == roster[0] || u in roster[1..];
      if IsActive(roster[0], active) != inverse then
        assert ([roster[0]] + rest)[1..] == rest;
        [roster[0]] + rest
      else
        rest
  }

  /**
   * The active and inactive lists partition the roster: together they hold
   * every entry exactly as often as the roster does, no entry is in both, and
   * each keeps roster order.
   */
  lemma {:induction false} RosterPartition(roster: seq<User>, active: set<string>)
    ensures var act, inact := FilterRoster(roster, active, false), FilterRoster(roster, active, true);
      && multiset(act) + multiset(inact) == multiset(roster)
      && (forall u :: !(u in act && u in inact))
      && IsSubsequence(act, roster) && IsSubsequence(inact, roster)
    decreases |roster|
  {
    if roster != [] {
      var head, tail := roster[0], roster[1..];
      RosterPartition(tail, active);
      assert roster == [head] + tail;
      var act, inact := FilterRoster(tail, active, false), FilterRoster(tail, active, true);
      if IsActive(head, active) {
        assert FilterRoster(roster, active, false) == [head] + act;
        assert FilterRoster(roster, active, true) == inact;
      } else {
        assert FilterRoster(roster, active, false) == act;
        assert FilterRoster(roster, active, true) == [head] + inact;
      }
    }
  }
}
