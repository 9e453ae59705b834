/**
 * Whole sessions of the real methods: any sequence of source changes, bootstraps, syncs, faults and restarts,
 * with other threads changing the source in the middle of a sync. Each session is a run of the protocol.
 */
module SyncSessions {
  import opened Outcomes
  import opened ChangeLog
  import opened FoldedDelta
  import opened LogDiscipline
  import opened Delivery
  import opened DeepSeeSource
  import opened DeepSeeClient
  import opened SyncState
  import opened MembershipStore
  import opened SyncProtocol
  import opened SyncEntities
  import opened Synchronizer

  /**
   * One event of a session. `during` lists what others do to the source before each wire call of a sync.
   * While a bootstrap runs no one else changes the source, but it may fail before any call as `failing` lists.
   */
  datatype Command =
    | DoChange(turns: seq<Turn>)
    | DoBootstrap(fault: Fault, failing: seq<seq<Failure>>)
    | DoSync(fault: Fault, during: seq<seq<Turn>>)
    | DoRestart

  function Failing(failing: seq<seq<Failure>>): (turns: seq<seq<Turn>>)
    ensures FailuresOnly(turns)
  {
    seq(|failing|, i requires 0 <= i < |failing| =>
      seq(|failing[i]|, j requires 0 <= j < |failing[i]| => QueueFailure(failing[i][j], 1)))
  }

  lemma {:induction false} RunExtends(initial: Membership, run: seq<World>, w: World)
    requires Run(initial, run) && Step(initial, run[|run| - 1], w)
    ensures Run(initial, run + [w])
  {}

  /** Carry out one command; only a restart makes a new synchronizer. */
  method Perform(command: Command, sync: DeepSeeSynchronizer) returns (next: DeepSeeSynchronizer)
    requires sync.Valid()
    modifies sync, sync.client, sync.client.service, sync.store, sync.repository
    ensures next == sync || fresh(next)
    ensures next.client == sync.client && next.store == sync.store && next.contextId == sync.contextId
    ensures next.repository == sync.repository
    ensures next.Valid()
    ensures Step(sync.client.service.initial, old(sync.View()), next.View())
  {
    next := sync;
    var service := sync.client.service;
    match command
    case DoChange(turns) =>
      ActAllKeeps(service.initial, service.State(), turns);
      service.Interfere(turns);
      assert Appends(old(sync.View()), sync.View());
    case DoBootstrap(fault, failing) =>
      service.interference := Failing(failing);
      var _, h, reached := sync.Bootstrap(fault);
      assert reached == Unpublished || Bootstraps(service.initial, old(sync.View()), sync.View(), reached);
    case DoSync(fault, during) =>
      service.interference := during;
      var _, m, reached, _ := sync.SyncOnce(fault);
      assert Syncs(old(sync.View()), sync.View(), m, reached) || Appends(old(sync.View()), sync.View());
    case DoRestart =>
      next := new DeepSeeSynchronizer(sync.client, sync.store, sync.contextId, sync.repository);
      assert Restarts(old(sync.View()), next.View());
  }

  /** Any session, from a synchronizer made over nothing published and nothing saved. */
  method Session(client: Client, store: Store, contextId: string, repository: StateRepository?, commands: seq<Command>)
    returns (sync: DeepSeeSynchronizer, ghost run: seq<World>)
    requires client.Ready()
    requires store.Holding(contextId) == None
    requires repository == null || repository.Saved(contextId) == NOTHING_YET
    modifies client, client.service, store, repository
    ensures sync.client == client && sync.store == store && sync.contextId == contextId && sync.Valid()
    ensures Run(client.service.initial, run) && |run| == |commands| + 1
    ensures run[|commands|] == sync.View() && run[0].log == old(client.service.events)
    ensures forall i :: 0 <= i < |run| ==> Tracks(client.service.initial, run[i])
    ensures Disciplined(client.service.events) ==>
              forall i :: 0 <= i < |run| ==> Refines(client.service.initial, run[i])
  {
    ghost var initial := client.service.initial;
    sync := new DeepSeeSynchronizer(client, store, contextId, repository);
    run := [sync.View()];
    for i := 0 to |commands|
      invariant fresh(sync) && sync.client == client && sync.store == store && sync.contextId == contextId
      invariant sync.repository == repository
      invariant sync.Valid()
      invariant |run| == i + 1 && run[i] == sync.View() && run[0].log == old(client.service.events)
      invariant Run(initial, run)
    {
      sync := Perform(commands[i], sync);
      RunExtends(initial, run, sync.View());
      run := run + [sync.View()];
    }
    RunTracks(initial, run);
    RunRefines(initial, run);
  }

  lemma RunRefines(initial: Membership, run: seq<World>)
    requires Run(initial, run)
    requires var log := run[|run| - 1].log; Numbered(log) && Valid(initial, log)
    ensures Disciplined(run[|run| - 1].log) ==> forall i :: 0 <= i < |run| ==> Refines(initial, run[i])
  {
    if Disciplined(run[|run| - 1].log) {
      forall i | 0 <= i < |run| ensures Refines(initial, run[i]) {
        var k := RunFaithful(initial, run, i);
      }
    }
  }

  /**
   * One more sync, undisturbed, after any session: what is published has the source's own members, and its score
   * for every entity whose events are disciplined, whatever failed before.
   */
  method Settle(sync: DeepSeeSynchronizer) returns (r: Result<SyncReport, ConnectorError>)
    requires sync.Valid() && Tracks(sync.client.service.initial, sync.View())
    requires sync.client.Undisturbed() && sync.committedWatermark.Some?
    requires !Overlong(sync.client.service.events, sync.committedWatermark.value, sync.Feed())
    modifies sync, sync.client, sync.client.service, sync.store, sync.repository
    ensures r.Ok? && sync.client.service.events == old(sync.client.service.events)
    ensures sync.committedWatermark == Some(|sync.client.service.events|)
    ensures QuietlyCounted(r.value.duplicatesSkipped, r.value.outOfOrderRejected, old(sync.seenEventIds),
                           old(sync.committedWatermark).value, |sync.client.service.events|, sync.Feed())
    ensures sync.store.Holding(sync.contextId).Some?
    ensures AsWanted(sync.client.service.events, sync.store.Holding(sync.contextId).value, sync.client.service.members)
  {
    ghost var initial, before := sync.client.service.initial, sync.View();
    TrackedPublished(initial, before);
    ghost var m, reached, delivered;
    r, m, reached, delivered := sync.SyncOnce(NoFault);
    TrackedRepairs(initial, before, sync.View(), m);
  }
}
