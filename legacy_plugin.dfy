/**
  The plugin class of the root-level main.ts: `onload` starts a timer that is
  registered with the host but never stored, `scheduleSync` always replaces
  `syncInterval` with a new timer, `saveSettings` schedules only for a
  positive interval, and `onunload` clears `syncInterval` without resetting
  it. The exclude patterns are shown one per line and read back by splitting
  on newlines, without trimming.
*/
module LegacyPlugin {
  import opened Wrappers
  import opened Text
  import opened Command
  import opened Timers

  class LegacyRsyncPlugin {
    var settings: Settings
    var syncInterval: Option<TimerId>
    const host: TimerHost
    /** Timers `onload` started and handed to `registerInterval`. */
    ghost var registered: set<TimerId>

    ghost function Tracked(): set<TimerId>
      reads this
    {
      if syncInterval.Some? then {syncInterval.value} else {}
    }

    /** The live timers are the registered ones and at most the tracked one
        (which may already be cleared after `onunload`); registered timers
        stay live and are never the tracked one. */
    ghost predicate Valid()
      reads this, host
    {
      && host.Valid()
      && (syncInterval.Some? ==> syncInterval.value < host.nextId)
      && registered <= host.live.Keys
      && host.live.Keys <= Tracked() + registered
      && Tracked() !! registered
    }

    /** At most one live timer is not a registered one. */
    lemma AtMostOneTrackedTimer()
      requires Valid()
      ensures |host.live.Keys - registered| <= 1
    {
      var others := host.live.Keys - registered;
      if others != {} {
        var t :| t in others;
        assert others == {t};
      }
    }

    constructor (host: TimerHost)
      requires host.Valid() && host.live == map[]
      ensures Valid()
      ensures this.host == host && settings == DefaultSettings
      ensures syncInterval == None && registered == {}
    {
      this.host := host;
      settings := DefaultSettings;
      syncInterval := None;
      registered := {};
    }

    /** `onload` once the settings are loaded: for a positive interval a timer
        is started and registered with the host, and `syncInterval` is left
        as it was. */
    method OnLoad(loaded: Settings)
      requires Valid()
      modifies this, host
      ensures Valid() && settings == loaded && syncInterval == old(syncInterval)
      ensures loaded.scheduleInterval > 0 ==>
                exists id :: id !in old(host.live)
                  && registered == old(registered) + {id}
                  && host.live == old(host.live)[id := PeriodMs(loaded.scheduleInterval)]
      ensures loaded.scheduleInterval <= 0 ==>
                registered == old(registered) && host.live == old(host.live)
    {
      settings := loaded;
      if settings.scheduleInterval > 0 {
        var id := host.SetInterval(PeriodMs(settings.scheduleInterval));
        registered := registered + {id};
      }
    }

    /** `onunload`: the tracked timer is cleared, but `syncInterval` keeps
        its old value. */
    method OnUnload()
      requires Valid()
      modifies this, host
      ensures Valid() && settings == old(settings) && registered == old(registered)
      ensures syncInterval == old(syncInterval)
      ensures host.live == old(host.live) - Tracked()
    {
      if syncInterval.Some? {
        host.ClearInterval(syncInterval.value);
      }
    }

    /** The scheduling branch of `saveSettings`: schedule for a positive
        interval; otherwise clear and reset a stored timer, or do nothing
        when none is stored. Registered timers are untouched either way. */
    method SaveSettings()
      requires Valid()
      modifies this, host
      ensures Valid() && settings == old(settings) && registered == old(registered)
      ensures forall t :: t in registered ==> t in host.live && host.live[t] == old(host.live)[t]
      ensures settings.scheduleInterval > 0 ==>
                syncInterval.Some? && syncInterval.value !in old(host.live)
                && host.live == (old(host.live) - old(Tracked()))[syncInterval.value := PeriodMs(settings.scheduleInterval)]
      ensures settings.scheduleInterval <= 0 ==>
                syncInterval == None && host.live == old(host.live) - old(Tracked())
      ensures settings.scheduleInterval <= 0 && old(syncInterval) == None ==>
                host.live == old(host.live) && host.nextId == old(host.nextId)
    {
      if settings.scheduleInterval > 0 {
        ScheduleSync(settings.scheduleInterval);
      } else if syncInterval.Some? {
        host.ClearInterval(syncInterval.value);
        syncInterval := None;
      }
    }

    /** `scheduleSync(minutes)`: the tracked timer is cleared and a new one is
        always started and stored, whatever the sign of `minutes`. */
    method ScheduleSync(minutes: int)
      requires Valid()
      modifies this, host
      ensures Valid() && settings == old(settings) && registered == old(registered)
      ensures syncInterval.Some? && syncInterval.value !in old(host.live)
      ensures host.live == (old(host.live) - old(Tracked()))[syncInterval.value := PeriodMs(minutes)]
    {
      if syncInterval.Some? {
        host.ClearInterval(syncInterval.value);
      }
      var id := host.SetInterval(PeriodMs(minutes));
      syncInterval := Some(id);
    }
  }

  /** After `onload` with a positive interval and a `saveSettings` with a
      positive interval, two recurring timers are live: the registered one
      from `onload` and the tracked one. */
  method DoubleTimerWitness() returns (host: TimerHost, plugin: LegacyRsyncPlugin)
    ensures plugin.host == host && plugin.Valid()
    ensures |host.live.Keys| == 2 && |plugin.registered| == 1
  {
    host := new TimerHost();
    plugin := new LegacyRsyncPlugin(host);
    plugin.OnLoad(DefaultSettings.(scheduleInterval := 5));
    plugin.SaveSettings();
    ghost var first :| first in plugin.registered;
    assert plugin.registered == {first};
    assert host.live.Keys == {first, plugin.syncInterval.value};
  }

  // ---------------------------------------------------------------------
  // The exclude-pattern field: `join('\n')` to display, `split('\n')` to
  // read back.

  function ExcludeFieldText(patterns: seq<string>): string {
    Join(patterns, "\n")
  }

  function ParseExcludeField(text: string): (patterns: seq<string>)
    ensures |patterns| >= 1
    ensures forall i :: 0 <= i < |patterns| ==> '\n' !in patterns[i]
  {
    Split(text, '\n')
  }

  /** A non-empty list of patterns without newlines survives the round trip
      through the text field unchanged (no trimming happens). */
  lemma ExcludeFieldRoundTrip(patterns: seq<string>)
    requires patterns != []
    requires forall i :: 0 <= i < |patterns| ==> '\n' !in patterns[i]
    ensures ParseExcludeField(ExcludeFieldText(patterns)) == patterns
  {
    SplitJoin(patterns, '\n');
  }

  /** Any text read in is displayed back exactly. */
  lemma ExcludeFieldTextRoundTrip(text: string)
    ensures ExcludeFieldText(ParseExcludeField(text)) == text
  {
    JoinSplit(text, '\n');
  }

  /** The empty list comes back as one empty pattern. */
  lemma ExcludeFieldEmpty()
    ensures ParseExcludeField(ExcludeFieldText([])) == [""]
  {
  }
}
