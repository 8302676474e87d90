/**
 * MainActivity.kt: the background refresh scheduling of the activity's
 * companion object, the MainViewModel scan controller, and the inline
 * expressions of onCreate and the dashboard.
 */
module MainActivity {
  import opened Wrappers
  import ThemeUtils
  import BluetoothUtils

  // ---------------------------------------------------------------------
  // Background refresh scheduling (`MainActivity.scheduleUpdates`)
  // ---------------------------------------------------------------------

  /** The unique work name the periodic refresh is enqueued under. */
  const SensorUpdateWork: string := "SensorUpdateWork"

  /** Intervals below this many minutes use a repeating alarm instead of periodic work. */
  const MinWorkIntervalMinutes: int := 15

  const MillisPerMinute: int := 60 * 1000

  /** An RTC_WAKEUP repeating alarm for the SensorUpdateReceiver broadcast. */
  datatype RepeatingAlarm = RepeatingAlarm(triggerAtMillis: int, intervalMillis: int)

  /** The calls the app makes on AlarmManager and WorkManager. */
  datatype SchedulerCall =
    | CancelUniqueWork(name: string)
    | CancelAlarm
    | SetRepeating(alarm: RepeatingAlarm)
    | EnqueueUniquePeriodicWork(name: string, repeatIntervalMinutes: int)

  /**
   * What the two platform schedulers hold for this app: the alarm of the
   * app's one pending intent, and the unique periodic work by name (its
   * repeat interval in minutes).
   */
  datatype SchedulerState = SchedulerState(alarm: Option<RepeatingAlarm>, uniqueWork: map<string, int>)

  predicate Installs(call: SchedulerCall)
  {
    call.SetRepeating? || call.EnqueueUniquePeriodicWork?
  }

  /**
   * The effect of one call. Setting an alarm for the same pending intent
   * replaces the old one; enqueueing with ExistingPeriodicWorkPolicy.UPDATE
   * replaces the work of that name. Each call touches only its own
   * scheduler, and a work call only the work of its own name.
   */
  function Apply(s: SchedulerState, call: SchedulerCall): (t: SchedulerState)
    ensures call.CancelAlarm? ==> t.alarm == None
    ensures call.SetRepeating? ==> t.alarm == Some(call.alarm)
    ensures call.CancelUniqueWork? ==> call.name !in t.uniqueWork
    ensures call.EnqueueUniquePeriodicWork? ==>
      call.name in t.uniqueWork && t.uniqueWork[call.name] == call.repeatIntervalMinutes
    ensures call.CancelAlarm? || call.SetRepeating? ==> t.uniqueWork == s.uniqueWork
    ensures call.CancelUniqueWork? || call.EnqueueUniquePeriodicWork? ==>
      t.alarm == s.alarm && t.uniqueWork - {call.name} == s.uniqueWork - {call.name}
  {
    match call
    case CancelUniqueWork(name) => s.(uniqueWork := s.uniqueWork - {name})
    case CancelAlarm => s.(alarm := None)
    case SetRepeating(alarm) => s.(alarm := Some(alarm))
    case EnqueueUniquePeriodicWork(name, minutes) => s.(uniqueWork := s.uniqueWork[name := minutes])
  }

  function ApplyAll(s: SchedulerState, calls: seq<SchedulerCall>): SchedulerState
    decreases |calls|
  {
    if calls == [] then s else ApplyAll(Apply(s, calls[0]), calls[1..])
  }

  /**
   * The calls `scheduleUpdates(intervalMinutes)` makes, in order, with `now`
   * the value of System.currentTimeMillis(): both cancellations come before
   * the one installation, which is the alarm exactly below 15 minutes.
   */
  function ScheduleCalls(intervalMinutes: int, now: int): (calls: seq<SchedulerCall>)
    ensures |calls| == 3 && Installs(calls[2])
    ensures forall j :: 0 <= j < |calls| && Installs(calls[j]) ==> j == 2
    ensures CancelUniqueWork(SensorUpdateWork) in calls[..2] && CancelAlarm in calls[..2]
    ensures calls[2].SetRepeating? <==> intervalMinutes < MinWorkIntervalMinutes
  {
    [CancelUniqueWork(SensorUpdateWork), CancelAlarm] +
    if intervalMinutes < MinWorkIntervalMinutes then
      var intervalMillis := intervalMinutes * MillisPerMinute;
      [SetRepeating(RepeatingAlarm(now + intervalMillis, intervalMillis))]
    else
      [EnqueueUniquePeriodicWork(SensorUpdateWork, intervalMinutes)]
  }

  /** Three calls take effect one after another. */
  lemma ApplyAllThree(s: SchedulerState, a: SchedulerCall, b: SchedulerCall, c: SchedulerCall)
    ensures ApplyAll(s, [a, b, c]) == Apply(Apply(Apply(s, a), b), c)
  {
    var afterA, afterB := Apply(s, a), Apply(Apply(s, a), b);
    assert [a, b, c][1..] == [b, c] && [b, c][1..] == [c] && [c][1..] == [];
    assert ApplyAll(afterB, [c]) == ApplyAll(Apply(afterB, c), []);
    assert ApplyAll(afterA, [b, c]) == ApplyAll(afterB, [c]);
  }

  /**
   * After `scheduleUpdates` exactly one mechanism is installed, chosen by the
   * 15-minute threshold, whatever was installed before; other unique work is
   * untouched.
   */
  lemma ScheduleInstallsExactlyOne(s: SchedulerState, intervalMinutes: int, now: int)
    ensures var t := ApplyAll(s, ScheduleCalls(intervalMinutes, now));
      && (t.alarm.Some? <==> intervalMinutes < MinWorkIntervalMinutes)
      && (SensorUpdateWork in t.uniqueWork <==> intervalMinutes >= MinWorkIntervalMinutes)
      && (intervalMinutes < MinWorkIntervalMinutes ==>
            t.alarm == Some(RepeatingAlarm(now + intervalMinutes * MillisPerMinute, intervalMinutes * MillisPerMinute)))
      && (intervalMinutes >= MinWorkIntervalMinutes ==> t.uniqueWork[SensorUpdateWork] == intervalMinutes)
      && t.uniqueWork - {SensorUpdateWork} == s.uniqueWork - {SensorUpdateWork}
  {
    var calls := ScheduleCalls(intervalMinutes, now);
    assert calls == [calls[0], calls[1], calls[2]];
    ApplyAllThree(s, calls[0], calls[1], calls[2]);
  }

  /** The state after scheduling depends on the earlier state only through other unique work. */
  lemma ScheduleReplacesPrevious(s1: SchedulerState, s2: SchedulerState, intervalMinutes: int, now: int)
    requires s1.uniqueWork - {SensorUpdateWork} == s2.uniqueWork - {SensorUpdateWork}
    ensures ApplyAll(s1, ScheduleCalls(intervalMinutes, now)) == ApplyAll(s2, ScheduleCalls(intervalMinutes, now))
  {
    ScheduleInstallsExactlyOne(s1, intervalMinutes, now);
    ScheduleInstallsExactlyOne(s2, intervalMinutes, now);
    var t1, t2 := ApplyAll(s1, ScheduleCalls(intervalMinutes, now)), ApplyAll(s2, ScheduleCalls(intervalMinutes, now));
    if intervalMinutes >= MinWorkIntervalMinutes {
      assert t1.uniqueWork == (t1.uniqueWork - {SensorUpdateWork})[SensorUpdateWork := intervalMinutes];
      assert t2.uniqueWork == (t2.uniqueWork - {SensorUpdateWork})[SensorUpdateWork := intervalMinutes];
    } else {
      assert t1.uniqueWork == t1.uniqueWork - {SensorUpdateWork};
      assert t2.uniqueWork == t2.uniqueWork - {SensorUpdateWork};
    }
  }

  /** Scheduling twice with the same interval and clock leaves what scheduling once leaves. */
  lemma ScheduleIdempotent(s: SchedulerState, intervalMinutes: int, now: int)
    ensures var once := ApplyAll(s, ScheduleCalls(intervalMinutes, now));
      ApplyAll(once, ScheduleCalls(intervalMinutes, now)) == once
  {
    var once := ApplyAll(s, ScheduleCalls(intervalMinutes, now));
    ScheduleInstallsExactlyOne(s, intervalMinutes, now);
    ScheduleReplacesPrevious(once, s, intervalMinutes, now);
  }

  /** AlarmManager and WorkManager as this app sees them, with the calls they received. */
  class BackgroundSchedulers {
    var alarm: Option<RepeatingAlarm>
    var uniqueWork: map<string, int>
    var calls: seq<SchedulerCall>

    constructor (initial: SchedulerState)
      ensures State() == initial && calls == []
    {
      alarm, uniqueWork := initial.alarm, initial.uniqueWork;
      calls := [];
    }

    function State(): SchedulerState
      reads this
    {
      SchedulerState(alarm, uniqueWork)
    }

    method Receive(call: SchedulerCall)
      modifies this
      ensures State() == Apply(old(State()), call)
      ensures calls == old(calls) + [call]
    {
      match call {
        case CancelUniqueWork(name) => uniqueWork := uniqueWork - {name};
        case CancelAlarm => alarm := None;
        case SetRepeating(a) => alarm := Some(a);
        case EnqueueUniquePeriodicWork(name, minutes) => uniqueWork := uniqueWork[name := minutes];
      }
      calls := calls + [call];
    }
  }

  /**
   * `scheduleUpdates(context, intervalMinutes)`, with `now` the current
   * time in milliseconds: cancel both mechanisms, then install one.
   */
  method ScheduleUpdates(platform: BackgroundSchedulers, intervalMinutes: int, now: int)
    modifies platform
    ensures platform.calls == old(platform.calls) + ScheduleCalls(intervalMinutes, now)
    ensures platform.State() == ApplyAll(old(platform.State()), ScheduleCalls(intervalMinutes, now))
    ensures platform.alarm.Some? <==> intervalMinutes < MinWorkIntervalMinutes
    ensures SensorUpdateWork in platform.uniqueWork <==> intervalMinutes >= MinWorkIntervalMinutes
    ensures intervalMinutes < MinWorkIntervalMinutes ==>
      platform.alarm == Some(RepeatingAlarm(now + intervalMinutes * MillisPerMinute, intervalMinutes * MillisPerMinute))
    ensures intervalMinutes >= MinWorkIntervalMinutes ==> platform.uniqueWork[SensorUpdateWork] == intervalMinutes
    ensures platform.uniqueWork - {SensorUpdateWork} == old(platform.uniqueWork) - {SensorUpdateWork}
  {
    ghost var before := platform.State();
    platform.Receive(CancelUniqueWork(SensorUpdateWork));
    platform.Receive(CancelAlarm);
    if intervalMinutes < MinWorkIntervalMinutes {
      var intervalMillis := intervalMinutes * MillisPerMinute;
      var triggerAt := now + intervalMillis;
      platform.Receive(SetRepeating(RepeatingAlarm(triggerAt, intervalMillis)));
    } else {
      platform.Receive(EnqueueUniquePeriodicWork(SensorUpdateWork, intervalMinutes));
    }
    var calls := ScheduleCalls(intervalMinutes, now);
    assert calls == [calls[0], calls[1], calls[2]];
    ApplyAllThree(before, calls[0], calls[1], calls[2]);
    ScheduleInstallsExactlyOne(before, intervalMinutes, now);
  }

  // ---------------------------------------------------------------------
  // MainViewModel: the scan job and the latest reading
  // ---------------------------------------------------------------------

  /** A reading as the dashboard uses it; temperature and humidity are not modelled. */
  datatype SensorData = SensorData(battery: int, rssi: int, name: Option<string>, macAddress: string, timestamp: int)

  /** The coroutine collecting `scanner.scan(targetMac, scanMode)`. */
  datatype ScanJob = ScanJob(id: nat, targetMac: string, scanMode: int, active: bool)

  class MainViewModel {
    var sensorData: Option<SensorData>
    var scanJob: Option<ScanJob>
    /** Jobs launched so far; job ids are 0 .. launched - 1. */
    var launched: nat
    /** Ids of the jobs `cancel()` was called on. */
    var cancelled: set<nat>

    ghost predicate Valid()
      reads this
    {
      && (forall id :: id in cancelled ==> id < launched)
      && (scanJob.Some? ==> scanJob.value.id < launched && (scanJob.value.active ==> scanJob.value.id !in cancelled))
    }

    constructor ()
      ensures Valid()
      ensures sensorData == None && scanJob == None && launched == 0 && cancelled == {}
    {
      sensorData, scanJob, launched, cancelled := None, None, 0, {};
    }

    /** `scanJob?.isActive == true` for the job `jobId`. */
    predicate IsRunning(jobId: nat)
      reads this
    {
      scanJob.Some? && scanJob.value.active && scanJob.value.id == jobId
    }

    predicate IsScanning()
      reads this
    {
      scanJob.Some? && scanJob.value.active
    }

    /** `startScanning`: ignored while a job is active, otherwise launches one with the current settings. */
    method StartScanning(targetMac: string, scanMode: int)
      requires Valid()
      modifies this
      ensures Valid() && IsScanning()
      ensures old(IsScanning()) ==> unchanged(this)
      ensures !old(IsScanning()) ==>
        scanJob == Some(ScanJob(old(launched), targetMac, scanMode, true)) && launched == old(launched) + 1
      ensures sensorData == old(sensorData) && cancelled == old(cancelled)
    {
      if IsScanning() {
        return;
      }
      scanJob := Some(ScanJob(launched, targetMac, scanMode, true));
      launched := launched + 1;
    }

    /** `restartScanning`: cancel the job, clear the reading, start again. */
    method RestartScanning(targetMac: string, scanMode: int)
      requires Valid()
      modifies this
      ensures Valid()
      ensures sensorData == None
      ensures scanJob == Some(ScanJob(old(launched), targetMac, scanMode, true))
      ensures launched == old(launched) + 1
      ensures cancelled == old(cancelled) + (if old(scanJob).Some? then {old(scanJob).value.id} else {})
      ensures old(scanJob).Some? ==> !IsRunning(old(scanJob).value.id)
    {
      if scanJob.Some? {
        cancelled := cancelled + {scanJob.value.id};
      }
      scanJob := None;
      sensorData := None;
      StartScanning(targetMac, scanMode);
    }

    /** The collector of job `jobId` receives `data`: only a running job's reading is stored. */
    method OnScanData(jobId: nat, data: SensorData)
      requires Valid()
      modifies this
      ensures Valid()
      ensures sensorData == if old(IsRunning(jobId)) then Some(data) else old(sensorData)
      ensures scanJob == old(scanJob) && launched == old(launched) && cancelled == old(cancelled)
    {
      if IsRunning(jobId) {
        sensorData := Some(data);
      }
    }

    /** Job `jobId` delivers `readings` one after another: the latest one wins. */
    method Collect(jobId: nat, readings: seq<SensorData>)
      requires Valid()
      modifies this
      ensures Valid()
      ensures sensorData == if old(IsRunning(jobId)) && readings != [] then Some(readings[|readings| - 1]) else old(sensorData)
      ensures scanJob == old(scanJob) && launched == old(launched) && cancelled == old(cancelled)
    {
      for i := 0 to |readings|
        invariant Valid()
        invariant scanJob == old(scanJob) && launched == old(launched) && cancelled == old(cancelled)
        invariant sensorData == if IsRunning(jobId) && i > 0 then Some(readings[i - 1]) else old(sensorData)
      {
        OnScanData(jobId, readings[i]);
      }
    }

    /** The scan flow of job `jobId` ends or fails: the job is no longer active. */
    method OnScanJobCompleted(jobId: nat)
      requires Valid()
      modifies this
      ensures Valid()
      ensures !IsScanning() || scanJob.value.id != jobId
      ensures scanJob == if old(IsRunning(jobId)) then Some(old(scanJob).value.(active := false)) else old(scanJob)
      ensures sensorData == old(sensorData) && launched == old(launched) && cancelled == old(cancelled)
    {
      if IsRunning(jobId) {
        scanJob := Some(scanJob.value.(active := false));
      }
    }
  }

  // ---------------------------------------------------------------------
  // Inline expressions of onCreate and the dashboard
  // ---------------------------------------------------------------------

  /** The `when (settingsRepository.theme)` of onCreate. */
  function StartupNightMode(theme: string): (mode: int)
    ensures mode == ThemeUtils.ThemeToNightMode(theme)
  {
    match theme
    case "light" => ThemeUtils.ModeNightNo
    case "dark" => ThemeUtils.ModeNightYes
    case _ => ThemeUtils.ModeNightFollowSystem
  }

  /** The dashboard's `signalPercentage`, written inline rather than by calling rssiToPercentage. */
  function SignalPercentage(rssi: int): (percent: int)
    ensures percent == BluetoothUtils.RssiToPercentage(rssi)
  {
    if rssi >= -35 then 100
    else if rssi <= -100 then 0
    else ((rssi + 100) * 100) / 65
  }

  /** The navigation start: "home" once setup is completed, "setup" before. */
  function StartDestination(isSetupCompleted: bool): (route: string)
    ensures route in {"home", "setup"}
    ensures route == "home" <==> isSetupCompleted
  {
    if isSetupCompleted then "home" else "setup"
  }
}
