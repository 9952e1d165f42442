/** Draining one over-scheduled host: deactivate it, delete its excess
    containers, wait, reactivate it and notify. In dry-run mode nothing is
    changed and nothing is sent. */
module Drain {
  import opened Records
  import Text

  /** The pause between the deletions and the reactivation, in seconds. */
  const SettleSeconds: nat := 30

  /** What the notification reports besides the host: the channel, the
      service as `stack/name`, its scale and the host count. */
  datatype Context = Context(channel: string, serviceRef: string, scale: int, hostCount: int)

  /** The number of deletions attempted: the excess, or every container on
      the host when there are fewer. */
  function Attempts(available: nat, toDelete: Pos): (n: nat)
    ensures n <= available && n <= toDelete
    ensures n == available || n == toDelete
  {
    if toDelete < available then toDelete else available
  }

  /** One line of the deleted-containers record: `id | name`. */
  function InfoLine(id: string, env: Platform): string
  {
    id + " | " + env.containerName(id)
  }

  function InfoLines(ids: seq<string>, env: Platform): seq<string>
  {
    seq(|ids|, k requires 0 <= k < |ids| => InfoLine(ids[k], env))
  }

  /** One delete per id, recording whether the platform accepted it. */
  function DeleteEvents(ids: seq<string>, env: Platform): seq<Event>
  {
    seq(|ids|, k requires 0 <= k < |ids| => Delete(ids[k], env.deleteSucceeds(ids[k])))
  }

  /** The record and the deletes grow by one id at a time. */
  lemma LinesSnoc(ids: seq<string>, i: nat, env: Platform)
    requires i < |ids|
    ensures InfoLines(ids[..i + 1], env) == InfoLines(ids[..i], env) + [InfoLine(ids[i], env)]
    ensures DeleteEvents(ids[..i + 1], env) == DeleteEvents(ids[..i], env) + [Delete(ids[i], env.deleteSucceeds(ids[i]))]
  {
  }

  /** The deletion loop. A failed delete still counts toward the quota; the
      loop stops once `toDelete` deletions were attempted. In dry-run mode it
      visits every id and changes nothing. */
  method DeleteContainers(ids: seq<string>, toDelete: Pos, dryRun: bool, env: Platform)
    returns (deletes: seq<Event>, deleted: nat, info: string)
    ensures dryRun ==> deletes == [] && deleted == 0 && info == ""
    ensures !dryRun ==> deleted == (if toDelete < |ids| then toDelete else |ids|)
    ensures !dryRun ==> |deletes| == deleted &&
                        forall k :: 0 <= k < deleted ==> deletes[k] == Delete(ids[k], env.deleteSucceeds(ids[k]))
    ensures !dryRun ==> info == Text.Join(InfoLines(ids[..deleted], env), '\n')
  {
    deletes, deleted, info := [], 0, "";
    var i := 0;
    while i < |ids|
      invariant 0 <= i <= |ids|
      invariant dryRun ==> deletes == [] && deleted == 0 && info == ""
      invariant !dryRun ==> deleted == i && i < toDelete
      invariant !dryRun ==> deletes == DeleteEvents(ids[..i], env)
      invariant !dryRun ==> info == Text.Join(InfoLines(ids[..i], env), '\n')
      invariant !dryRun ==> (info == "" <==> i == 0)
    {
      var containerId := ids[i];
      if !dryRun {
        var ok := env.deleteSucceeds(containerId);
        deletes := deletes + [Delete(containerId, ok)];
        deleted := deleted + 1;
        var line := containerId + " | " + env.containerName(containerId);
        LinesSnoc(ids, i, env);
        if info != "" {
          Text.JoinSnoc(InfoLines(ids[..i], env), line, '\n');
          info := info + "\n";
        } else {
          assert InfoLines(ids[..i + 1], env) == [line];
        }
        info := info + line;
        if deleted >= toDelete {
          break;
        }
      }
      i := i + 1;
    }
  }

  /** The events of draining host `m` in live mode. */
  function LiveDrain(m: Entry, toDelete: Pos, ctx: Context, env: Platform): seq<Event>
  {
    var ids := m.containerIds[..Attempts(|m.containerIds|, toDelete)];
    var note := Notification(ctx.channel, ctx.serviceRef, env.hostname(m.hostId), ctx.scale, ctx.hostCount,
                             toDelete, Text.Join(InfoLines(ids, env), '\n'));
    [Deactivate(m.hostId)] + DeleteEvents(ids, env) + [Sleep(SettleSeconds), Activate(m.hostId), Notify(note)]
  }

  /** The drain of one host. Looking the host up happens in both modes; its
      failure ends the drain before anything is done (and, for the caller,
      the whole pass). Deactivation and activation errors are only logged,
      so they do not change the sequence. */
  method DrainHost(m: Entry, toDelete: Pos, dryRun: bool, ctx: Context, env: Platform)
    returns (events: seq<Event>, found: bool)
    ensures found == env.hostFound(m.hostId)
    ensures !found || dryRun ==> events == []
    ensures found && !dryRun ==> events == LiveDrain(m, toDelete, ctx, env)
  {
    events := [];
    found := env.hostFound(m.hostId);
    if !found {
      return;
    }
    if !dryRun {
      events := events + [Deactivate(m.hostId)];
    }
    var deletes, deleted, info := DeleteContainers(m.containerIds, toDelete, dryRun, env);
    events := events + deletes;
    if !dryRun {
      events := events + [Sleep(SettleSeconds)];
    }
    if !dryRun {
      var hostname := env.hostname(m.hostId);
      events := events + [Activate(m.hostId)];
      var note := Notification(ctx.channel, ctx.serviceRef, hostname, ctx.scale, ctx.hostCount, toDelete, info);
      events := events + [Notify(note)];
      assert deleted == Attempts(|m.containerIds|, toDelete);
      assert deletes == DeleteEvents(m.containerIds[..deleted], env);
      assert events == [Deactivate(m.hostId)] + deletes + [Sleep(SettleSeconds), Activate(m.hostId), Notify(note)];
    }
  }

  // ---------------------------------------------------------------------
  // Lemmas

  lemma {:induction false} DeletedOfDeletes(ids: seq<string>, env: Platform)
    ensures Deleted(DeleteEvents(ids, env)) == ids
  {
    if ids != [] {
      var init := ids[..|ids| - 1];
      assert DeleteEvents(ids, env)[..|ids| - 1] == DeleteEvents(init, env);
      DeletedOfDeletes(init, env);
      assert ids == init + [ids[|ids| - 1]];
    }
  }

  /** A live drain deletes the first `toDelete` containers of the host in
      order (all of them if there are fewer), whether or not the platform
      accepts each deletion. */
  lemma DrainQuota(m: Entry, toDelete: Pos, ctx: Context, env: Platform)
    ensures Deleted(LiveDrain(m, toDelete, ctx, env)) == m.containerIds[..Attempts(|m.containerIds|, toDelete)]
    ensures toDelete <= |m.containerIds| ==> |Deleted(LiveDrain(m, toDelete, ctx, env))| == toDelete
  {
    var ids := m.containerIds[..Attempts(|m.containerIds|, toDelete)];
    var tail := LiveDrain(m, toDelete, ctx, env)[1 + |ids|..];
    assert LiveDrain(m, toDelete, ctx, env) == [Deactivate(m.hostId)] + DeleteEvents(ids, env) + tail;
    DeletedAppend([Deactivate(m.hostId)] + DeleteEvents(ids, env), tail);
    DeletedAppend([Deactivate(m.hostId)], DeleteEvents(ids, env));
    DeletedOfDeletes(ids, env);
    assert Deleted([Deactivate(m.hostId)]) == [];
    assert tail == [Sleep(SettleSeconds)] + [Activate(m.hostId)] + [Notify(tail[2].note)];
    DeletedAppend([Sleep(SettleSeconds)] + [Activate(m.hostId)], [Notify(tail[2].note)]);
    DeletedAppend([Sleep(SettleSeconds)], [Activate(m.hostId)]);
  }

  /** Every deletion of a live drain happens while the host is deactivated:
      a deactivation of the host comes before it, and its reactivation after
      it, followed by the pause before and the notification after. */
  lemma DeletesWhileDeactivated(m: Entry, toDelete: Pos, ctx: Context, env: Platform, k: nat)
    requires k < |LiveDrain(m, toDelete, ctx, env)|
    requires LiveDrain(m, toDelete, ctx, env)[k].Delete?
    ensures var events := LiveDrain(m, toDelete, ctx, env);
            events[0] == Deactivate(m.hostId) && 0 < k < |events| - 3 &&
            events[|events| - 3] == Sleep(SettleSeconds) &&
            events[|events| - 2] == Activate(m.hostId) &&
            events[|events| - 1].Notify?
  {
  }

  /** The deleted-containers record splits back into its `id | name` lines,
      as long as no id or name holds a line break. */
  lemma InfoRoundTrip(ids: seq<string>, env: Platform)
    requires |ids| >= 1
    requires forall k :: 0 <= k < |ids| ==> '\n' !in ids[k] && '\n' !in env.containerName(ids[k])
    ensures Text.Split(Text.Join(InfoLines(ids, env), '\n'), '\n') == InfoLines(ids, env)
  {
    var lines := InfoLines(ids, env);
    forall k | 0 <= k < |lines|
      ensures '\n' !in lines[k]
    {
      assert lines[k] == ids[k] + " | " + env.containerName(ids[k]);
    }
    Text.SplitJoin(lines, '\n');
  }
}
