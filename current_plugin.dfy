/**
  The plugin class of src/main.ts: the timer bookkeeping of `onload`,
  `onunload`, `saveSettings`, `scheduleSync` and `clearScheduleInterval`
  over the field `intervalId`, and the comma-separated text form of the
  exclude patterns in the settings form.
*/
module CurrentPlugin {
  import opened Wrappers
  import opened Text
  import opened Command
  import opened Timers

  class RsyncPlugin {
    var settings: Settings
    var intervalId: Option<TimerId>
    const host: TimerHost

    /** The timer the plugin keeps a handle to, if any. */
    ghost function Tracked(): set<TimerId>
      reads this
    {
      if intervalId.Some? then {intervalId.value} else {}
    }

    /** Every timer the plugin starts is stored in `intervalId`, so the live
        timers are exactly the tracked one: at most one. */
    ghost predicate Valid()
      reads this, host
      ensures Valid() ==> |host.live.Keys| <= 1
    {
      host.Valid() && host.live.Keys == Tracked()
    }

    constructor (host: TimerHost)
      requires host.Valid() && host.live == map[]
      ensures Valid()
      ensures this.host == host && settings == DefaultSettings && intervalId == None
    {
      this.host := host;
      settings := DefaultSettings;
      intervalId := None;
    }

    /** `onload` once the settings are loaded: schedule when the interval is
        positive. */
    method OnLoad(loaded: Settings)
      requires Valid()
      modifies this, host
      ensures Valid() && settings == loaded
      ensures loaded.scheduleInterval > 0 ==>
                intervalId.Some? && intervalId.value !in old(host.live)
                && host.live == map[intervalId.value := PeriodMs(loaded.scheduleInterval)]
      ensures loaded.scheduleInterval <= 0 ==>
                intervalId == old(intervalId) && host.live == old(host.live)
    {
      settings := loaded;
      if settings.scheduleInterval > 0 {
        ScheduleSync(settings.scheduleInterval);
      }
    }

    /** `onunload`: the tracked timer is cleared. */
    method OnUnload()
      requires Valid()
      modifies this, host
      ensures Valid() && settings == old(settings)
      ensures intervalId == None && host.live == map[]
    {
      ClearScheduleInterval();
    }

    /** The scheduling branch of `saveSettings`: reschedule for a positive
        interval, clear otherwise. */
    method SaveSettings()
      requires Valid()
      modifies this, host
      ensures Valid() && settings == old(settings)
      ensures intervalId.Some? <==> settings.scheduleInterval > 0
      ensures settings.scheduleInterval > 0 ==>
                intervalId.value !in old(host.live)
                && host.live == map[intervalId.value := PeriodMs(settings.scheduleInterval)]
      ensures settings.scheduleInterval <= 0 ==> host.live == map[]
    {
      if settings.scheduleInterval > 0 {
        ScheduleSync(settings.scheduleInterval);
      } else {
        ClearScheduleInterval();
      }
    }

    /** `scheduleSync(minutes)`: any tracked timer is cleared first; for a
        positive interval one fresh timer with period minutes * 60 * 1000
        is then the only live timer. */
    method ScheduleSync(minutes: int)
      requires Valid()
      modifies this, host
      ensures Valid() && settings == old(settings)
      ensures forall t :: t in old(host.live) ==> t !in host.live
      ensures intervalId.Some? <==> minutes > 0
      ensures minutes > 0 ==>
                intervalId.value !in old(host.live)
                && host.live == map[intervalId.value := PeriodMs(minutes)]
      ensures minutes <= 0 ==> host.live == map[]
    {
      ClearScheduleInterval();
      if minutes > 0 {
        var id := host.SetInterval(PeriodMs(minutes));
        intervalId := Some(id);
      }
    }

    /** `clearScheduleInterval`: afterwards no timer is tracked or live; when
        none was tracked nothing changes, so a second call is a no-op. */
    method ClearScheduleInterval()
      requires Valid()
      modifies this, host
      ensures Valid() && settings == old(settings)
      ensures intervalId == None
      ensures host.live == old(host.live) - old(Tracked()) == map[]
      ensures host.nextId == old(host.nextId)
      ensures old(intervalId) == None ==> host.live == old(host.live)
    {
      if intervalId.Some? {
        host.ClearInterval(intervalId.value);
        intervalId := None;
      }
    }
  }

  /** The same sequence that leaves two timers live in the main.ts plugin,
      `onload` with a positive interval followed by a `saveSettings` with a
      positive interval, leaves exactly one here. */
  method SingleTimerWitness() returns (host: TimerHost, plugin: RsyncPlugin)
    ensures plugin.host == host && plugin.Valid()
    ensures |host.live.Keys| == 1
  {
    host := new TimerHost();
    plugin := new RsyncPlugin(host);
    plugin.OnLoad(DefaultSettings.(scheduleInterval := 5));
    plugin.SaveSettings();
    assert host.live.Keys == {plugin.intervalId.value};
  }

  // ---------------------------------------------------------------------
  // The exclude-pattern field: `join(',')` to display, split on ',' and
  // trim each piece to read back.

  function ExcludeFieldText(patterns: seq<string>): string {
    Join(patterns, ",")
  }

  /** `value.split(',').map(p => p.trim())`: at least one pattern, each
      trimmed and free of ','. */
  function ParseExcludeField(text: string): (patterns: seq<string>)
    ensures |patterns| >= 1
    ensures forall i :: 0 <= i < |patterns| ==> IsTrimmed(patterns[i]) && ',' !in patterns[i]
  {
    var pieces := Split(text, ',');
    seq(|pieces|, i requires 0 <= i < |pieces| => Trim(pieces[i]))
  }

  /** A non-empty list of trimmed patterns without ',' survives the round
      trip through the text field. */
  lemma ExcludeFieldRoundTrip(patterns: seq<string>)
    requires patterns != []
    requires forall i :: 0 <= i < |patterns| ==> IsTrimmed(patterns[i]) && ',' !in patterns[i]
    ensures ParseExcludeField(ExcludeFieldText(patterns)) == patterns
  {
    SplitJoin(patterns, ',');
  }

  /** The empty list comes back as one empty pattern. */
  lemma ExcludeFieldEmpty()
    ensures ParseExcludeField(ExcludeFieldText([])) == [""]
  {
  }

  /** Displaying what was read and reading it again changes nothing. */
  lemma ExcludeFieldStable(text: string)
    ensures ParseExcludeField(ExcludeFieldText(ParseExcludeField(text))) == ParseExcludeField(text)
  {
    ExcludeFieldRoundTrip(ParseExcludeField(text));
  }
}
