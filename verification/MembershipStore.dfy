/** The membership store, known only by its contract: staged snapshots are invisible until committed. */
module MembershipStore {
  import opened Outcomes
  import opened ChangeLog
  import opened FoldedDelta

  const DEFAULT_SCORE := 1.0

  datatype Staged = Staged(contextId: string, membership: Membership)

  function Scored(members: seq<int>, scores: map<int, real>): Membership {
    map x | x in members :: if x in scores then scores[x] else DEFAULT_SCORE
  }

  class Store {
    /** Whether snapshots can be staged before they are published. */
    const staging: bool
    var published: map<string, Membership>

    constructor (staging: bool)
      ensures this.staging == staging && published == map[]
    {
      this.staging := staging;
      published := map[];
    }

    function Holding(contextId: string): Option<Membership>
      reads this
    {
      if contextId in published then Some(published[contextId]) else None
    }

    method CommitSnapshot(staged: Staged)
      modifies this
      ensures published == old(published)[staged.contextId := staged.membership]
    {
      published := published[staged.contextId := staged.membership];
    }
  }
}
