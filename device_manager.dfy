/**
 * The bookkeeping of the device manager: device jobs and their abort/run
 * states, the two job queues (steps of the current job first), the connected
 * device and the set of ejected devices, the cached device information, the
 * enablement of the send-to-device menu and the parsing of a send destination.
 *
 * The device driver, the job manager and the GUI slots are collaborators:
 * what they return is a parameter, and what is asked of them is recorded in an
 * event log (`events`, `connectedSignals`, `deviceCalls`, `managedJobs`).
 */
module DeviceManagement {
  import opened Wrappers
  import opened Strings

  // ---------------------------------------------------------------- device jobs

  /** The run state kept by the job manager. */
  datatype RunState = Waiting | Running | Finished

  /** What a job puts on the job manager's change queue: the start of its work, and its end (after its callback ran). */
  datatype JobEvent = WorkStarted | WorkDone

  /** What the job's function did: returned a value, or raised an error with a traceback. */
  datatype Outcome = Returned(value: string) | Raised(error: string, traceback: string)

  /** The `done` callback handed to a job. */
  datatype Callback = NoCallback | DispatcherCallback | FunctionDispatcherCallback | PlainCallback

  const NoDetails: string := "No details available."

  class DeviceJob {
    const description: string
    /** The callback as stored: anything but a dispatcher is wrapped in a function dispatcher. */
    const callback: Callback
    var runState: RunState
    var aborted: bool
    var failed: bool
    var details: string
    var exception: Option<string>
    var result: Option<string>
    var events: seq<JobEvent>

    constructor (description: string, done: Callback)
      ensures this.description == description
      ensures callback == (if done.DispatcherCallback? then done else FunctionDispatcherCallback)
      ensures runState == Waiting && !aborted && !failed && details == NoDetails
      ensures exception == None && result == None && events == []
    {
      this.description := description;
      callback := if done.DispatcherCallback? then done else FunctionDispatcherCallback;
      runState := Waiting;
      aborted := false;
      failed := false;
      details := NoDetails;
      exception := None;
      result := None;
      events := [];
    }

    /** `abort`: a waiting job is started and finished on the spot; every job ends failed with `err`. */
    method Abort(err: string)
      modifies this
      ensures aborted && failed && details == err && exception == Some(err)
      ensures events == old(events) + (if old(runState) == Waiting then [WorkStarted, WorkDone] else [])
      ensures runState == old(runState) && result == old(result)
    {
      var callJobDone := false;
      if runState == Waiting {
        events := events + [WorkStarted];
        callJobDone := true;
      }
      aborted := true;
      failed := true;
      details := err;
      exception := Some(err);
      if callJobDone {
        events := events + [WorkDone];
      }
    }

    /**
     * `run`: the work always starts and finishes; a returned value is kept;
     * an error is recorded as the failure unless the job was aborted.
     */
    method Run(outcome: Outcome)
      modifies this
      ensures events == old(events) + [WorkStarted, WorkDone]
      ensures result == (if outcome.Returned? then Some(outcome.value) else old(result))
      ensures outcome.Raised? && !old(aborted) ==>
        failed && details == outcome.error + "\n\n" + outcome.traceback && exception == Some(outcome.error)
      ensures outcome.Returned? || old(aborted) ==>
        failed == old(failed) && details == old(details) && exception == old(exception)
      ensures aborted == old(aborted) && runState == old(runState)
    {
      events := events + [WorkStarted];
      match outcome {
        case Returned(v) =>
          result := Some(v);
        case Raised(err, tb) =>
          if !aborted {
            failed := true;
            details := err + "\n\n" + tb;
            exception := Some(err);
          }
      }
      events := events + [WorkDone];
    }
  }

  // ---------------------------------------------------------------- the device manager

  /** A device driver instance, by identity. */
  type Device = string

  /** What the manager asks of the connected device. */
  datatype DeviceCall = Eject(d: Device) | RequestUnmount(d: Device) | PostYankCleanup(d: Device) | Shutdown(d: Device)

  /** One field of the device information: a text, or the `{}` the manager pads with. */
  datatype InfoField = Text(s: string) | Dict(entries: map<string, string>)

  datatype DeviceInformation = DeviceInformation(info: seq<InfoField>, prefixes: (Option<string>, Option<string>), freeSpace: seq<int>)

  /** The characters removed from every text field of the device information. */
  const ControlChars: set<char> := {'\0', '\U{0001}'}

  /** The information fields as kept: one `{}` appended when fewer than five, control characters removed. */
  function CleanInfo(info: seq<InfoField>): (r: seq<InfoField>)
    ensures |r| == (if |info| < 5 then |info| + 1 else |info|)
    ensures forall k :: 0 <= k < |info| ==> r[k].Text? == info[k].Text?
    ensures forall k :: 0 <= k < |info| && info[k].Dict? ==> r[k] == info[k]
    ensures forall k :: 0 <= k < |info| && info[k].Text? ==>
              r[k].s == RemoveAll(info[k].s, ControlChars) && forall c :: c in r[k].s ==> c !in ControlChars
    ensures |info| < 5 ==> r[|info|] == Dict(map[])
  {
    var padded := if |info| < 5 then info + [Dict(map[])] else info;
    seq(|padded|, k requires 0 <= k < |padded| =>
      match padded[k]
      case Text(s) => Text(RemoveAll(s, ControlChars))
      case Dict(e) => Dict(e))
  }

  const KindDevice: string := "device"
  const KindUnmanaged: string := "unmanaged-device"

  class DeviceManager {
    var jobs: seq<DeviceJob>
    var jobSteps: seq<DeviceJob>
    var currentJob: Option<DeviceJob>
    /** Every job handed to the job manager, in order. */
    var managedJobs: seq<DeviceJob>
    var connectedDevice: Option<Device>
    var connectedDeviceKind: Option<string>
    var ejectedDevices: set<Device>
    var callShutdownOnDisconnect: bool
    var deviceInformation: Option<DeviceInformation>
    /** The values passed to the connected slot (`True` on connection, `False` on disconnection). */
    var connectedSignals: seq<bool>
    var deviceCalls: seq<DeviceCall>

    constructor ()
      ensures jobs == [] && jobSteps == [] && currentJob == None && managedJobs == []
      ensures connectedDevice == None && connectedDeviceKind == None && ejectedDevices == {}
      ensures !callShutdownOnDisconnect && deviceInformation == None
      ensures connectedSignals == [] && deviceCalls == []
    {
      jobs := [];
      jobSteps := [];
      currentJob := None;
      managedJobs := [];
      connectedDevice := None;
      connectedDeviceKind := None;
      ejectedDevices := {};
      callShutdownOnDisconnect := false;
      deviceInformation := None;
      connectedSignals := [];
      deviceCalls := [];
    }

    predicate IsDeviceConnected()
      reads this
    {
      connectedDevice.Some?
    }

    /** `is_device_present`: a device is connected and it has not been ejected. */
    predicate IsDevicePresent()
      reads this
    {
      connectedDevice.Some? && connectedDevice.value !in ejectedDevices
    }

    /** `next_job`: the oldest pending step of the current job, else the oldest pending job, else nothing. */
    method NextJob() returns (job: Option<DeviceJob>)
      modifies this
      ensures old(jobSteps) != [] ==> job == Some(old(jobSteps)[0]) && jobSteps == old(jobSteps)[1..] && jobs == old(jobs)
      ensures old(jobSteps) == [] && old(jobs) != [] ==> job == Some(old(jobs)[0]) && jobs == old(jobs)[1..] && jobSteps == []
      ensures old(jobSteps) == [] && old(jobs) == [] ==> job == None && jobs == [] && jobSteps == []
      ensures currentJob == old(currentJob) && managedJobs == old(managedJobs)
      ensures connectedDevice == old(connectedDevice) && connectedDeviceKind == old(connectedDeviceKind)
      ensures ejectedDevices == old(ejectedDevices) && callShutdownOnDisconnect == old(callShutdownOnDisconnect)
      ensures deviceInformation == old(deviceInformation)
      ensures connectedSignals == old(connectedSignals) && deviceCalls == old(deviceCalls)
    {
      if jobSteps != [] {
        job := Some(jobSteps[0]);
        jobSteps := jobSteps[1..];
        return;
      }
      if jobs != [] {
        job := Some(jobs[0]);
        jobs := jobs[1..];
        return;
      }
      job := None;
    }

    /**
     * `create_job_step`: the new job is handed to the job manager; it is a step
     * of the current job (served first) only when `done` is absent or a function
     * dispatcher and `toJob` is the current job.
     */
    method CreateJobStep(description: string, done: Callback, toJob: Option<DeviceJob>) returns (job: DeviceJob)
      modifies this
      ensures fresh(job) && job.description == description && job.runState == Waiting && !job.aborted
      ensures managedJobs == old(managedJobs) + [job]
      ensures (done.NoCallback? || done.FunctionDispatcherCallback?) && toJob.Some? && old(currentJob) == toJob ==>
                jobSteps == old(jobSteps) + [job] && jobs == old(jobs)
      ensures !((done.NoCallback? || done.FunctionDispatcherCallback?) && toJob.Some? && old(currentJob) == toJob) ==>
                jobs == old(jobs) + [job] && jobSteps == old(jobSteps)
      ensures currentJob == old(currentJob)
      ensures connectedDevice == old(connectedDevice) && connectedDeviceKind == old(connectedDeviceKind)
      ensures ejectedDevices == old(ejectedDevices) && callShutdownOnDisconnect == old(callShutdownOnDisconnect)
      ensures deviceInformation == old(deviceInformation)
      ensures connectedSignals == old(connectedSignals) && deviceCalls == old(deviceCalls)
    {
      job := new DeviceJob(description, done);
      managedJobs := managedJobs + [job];
      if (done.NoCallback? || done.FunctionDispatcherCallback?) && toJob.Some? && toJob == currentJob {
        jobSteps := jobSteps + [job];
      } else {
        jobs := jobs + [job];
      }
    }

    /**
     * `connected_device_removed`: every queued job is aborted and the queue
     * left empty; the device is forgotten, and taken out of the ejected set;
     * the disconnection is signalled only if the device had not been ejected.
     */
    method ConnectedDeviceRemoved(message: string)
      requires callShutdownOnDisconnect ==> connectedDevice.Some?
      modifies this, set j | j in jobs
      ensures jobs == []
      ensures forall j :: j in old(jobs) ==> j.aborted && j.failed && j.exception == Some(message)
      ensures connectedDevice == None && deviceInformation == None && !callShutdownOnDisconnect
      ensures ejectedDevices == old(ejectedDevices) - (if old(connectedDevice).Some? then {old(connectedDevice).value} else {})
      ensures old(connectedDevice).Some? && old(connectedDevice).value in old(ejectedDevices) ==>
                connectedSignals == old(connectedSignals)
      ensures !(old(connectedDevice).Some? && old(connectedDevice).value in old(ejectedDevices)) ==>
                connectedSignals == old(connectedSignals) + [false]
      ensures deviceCalls == old(deviceCalls)
                + (if old(connectedDevice).Some? then [PostYankCleanup(old(connectedDevice).value)] else [])
                + (if old(callShutdownOnDisconnect) then [Shutdown(old(connectedDevice).value)] else [])
      ensures jobSteps == old(jobSteps) && currentJob == old(currentJob) && managedJobs == old(managedJobs)
      ensures connectedDeviceKind == old(connectedDeviceKind)
      ensures !IsDevicePresent()
    {
      ghost var queued := jobs;
      var i := 0;
      while jobs != []
        invariant 0 <= i <= |queued| && jobs == queued[i..]
        invariant forall j :: j in queued[..i] ==> j.aborted && j.failed && j.exception == Some(message)
        invariant connectedDevice == old(connectedDevice) && ejectedDevices == old(ejectedDevices)
        invariant callShutdownOnDisconnect == old(callShutdownOnDisconnect)
        invariant connectedSignals == old(connectedSignals) && deviceCalls == old(deviceCalls)
        invariant jobSteps == old(jobSteps) && currentJob == old(currentJob) && managedJobs == old(managedJobs)
        invariant connectedDeviceKind == old(connectedDeviceKind)
        decreases |jobs|
      {
        var job := jobs[0];
        jobs := jobs[1..];
        job.Abort(message);
        assert queued[..i + 1] == queued[..i] + [job];
        i := i + 1;
      }
      assert queued[..i] == queued;
      var callConnectedSlot: bool;
      if connectedDevice.Some? {
        deviceCalls := deviceCalls + [PostYankCleanup(connectedDevice.value)];
      }
      if connectedDevice.Some? && connectedDevice.value in ejectedDevices {
        ejectedDevices := ejectedDevices - {connectedDevice.value};
        callConnectedSlot := false;
      } else {
        callConnectedSlot := true;
      }
      if callShutdownOnDisconnect {
        deviceCalls := deviceCalls + [Shutdown(connectedDevice.value)];
        callShutdownOnDisconnect := false;
      }
      connectedDevice := None;
      deviceInformation := None;
      if callConnectedSlot {
        connectedSignals := connectedSignals + [false];
      }
    }

    /**
     * `umount_device`: only with a device connected and no device job running.
     * A device or unmanaged device is ejected and the disconnection signalled;
     * only a (managed) device joins the ejected set. Other kinds are asked to
     * unmount when they can.
     */
    method UmountDevice(hasDeviceJobs: bool, canUnmount: bool)
      modifies this
      ensures old(connectedDevice).None? || hasDeviceJobs ==>
                ejectedDevices == old(ejectedDevices) && connectedSignals == old(connectedSignals)
                && deviceCalls == old(deviceCalls)
      ensures old(connectedDevice).Some? && !hasDeviceJobs && connectedDeviceKind == Some(KindDevice) ==>
                ejectedDevices == old(ejectedDevices) + {old(connectedDevice).value}
                && connectedSignals == old(connectedSignals) + [false]
                && deviceCalls == old(deviceCalls) + [Eject(old(connectedDevice).value)]
      ensures old(connectedDevice).Some? && !hasDeviceJobs && connectedDeviceKind == Some(KindUnmanaged) ==>
                ejectedDevices == old(ejectedDevices)
                && connectedSignals == old(connectedSignals) + [false]
                && deviceCalls == old(deviceCalls) + [Eject(old(connectedDevice).value)]
      ensures old(connectedDevice).Some? && !hasDeviceJobs && connectedDeviceKind !in {Some(KindDevice), Some(KindUnmanaged)} ==>
                ejectedDevices == old(ejectedDevices) && connectedSignals == old(connectedSignals)
                && deviceCalls == old(deviceCalls) + (if canUnmount then [RequestUnmount(old(connectedDevice).value)] else [])
      ensures connectedDevice == old(connectedDevice) && connectedDeviceKind == old(connectedDeviceKind)
      ensures jobs == old(jobs) && jobSteps == old(jobSteps) && currentJob == old(currentJob)
      ensures managedJobs == old(managedJobs) && deviceInformation == old(deviceInformation)
      ensures callShutdownOnDisconnect == old(callShutdownOnDisconnect)
    {
      if connectedDevice.Some? && !hasDeviceJobs {
        var dev := connectedDevice.value;
        if connectedDeviceKind == Some(KindUnmanaged) || connectedDeviceKind == Some(KindDevice) {
          deviceCalls := deviceCalls + [Eject(dev)];
          if connectedDeviceKind != Some(KindUnmanaged) {
            ejectedDevices := ejectedDevices + {dev};
          }
          connectedSignals := connectedSignals + [false];
        } else if canUnmount {
          deviceCalls := deviceCalls + [RequestUnmount(dev)];
        }
      }
    }

    /**
     * `_get_device_information`: the fields the device reports, cleaned, with
     * its card prefixes and free space; the whole is also cached.
     */
    method GetDeviceInformation(info: seq<InfoField>, cardPrefix: (Option<string>, Option<string>), freeSpace: seq<int>)
      returns (r: DeviceInformation)
      modifies this
      ensures r == DeviceInformation(CleanInfo(info), cardPrefix, freeSpace)
      ensures deviceInformation == Some(r)
      ensures jobs == old(jobs) && jobSteps == old(jobSteps) && currentJob == old(currentJob)
      ensures managedJobs == old(managedJobs) && connectedDevice == old(connectedDevice)
      ensures connectedDeviceKind == old(connectedDeviceKind) && ejectedDevices == old(ejectedDevices)
      ensures callShutdownOnDisconnect == old(callShutdownOnDisconnect)
      ensures connectedSignals == old(connectedSignals) && deviceCalls == old(deviceCalls)
    {
      r := DeviceInformation(CleanInfo(info), cardPrefix, freeSpace);
      deviceInformation := Some(r);
    }
  }

  /** Ejecting a connected (managed) device makes it no longer present, while it stays connected. */
  lemma EjectedNotPresent(m: DeviceManager, d: Device)
    requires m.connectedDevice == Some(d) && d in m.ejectedDevices
    ensures m.IsDeviceConnected() && !m.IsDevicePresent()
  {
  }

  // ---------------------------------------------------------------- send-to-device menu

  const DestMain: string := "main:"
  const DestCardA: string := "carda:0"
  const DestCardB: string := "cardb:0"

  /** Whether a send action for `dest` (one of the three storage destinations) is enabled. */
  function SendEnabled(enable: bool, cardPrefix: (Option<string>, Option<string>), dest: string): (r: bool)
    requires dest in {DestMain, DestCardA, DestCardB}
    ensures r ==> enable
    ensures enable && dest == DestMain ==> r
    ensures r && dest == DestCardA ==> cardPrefix.0.Some?
    ensures r && dest == DestCardB ==> cardPrefix.1.Some?
  {
    enable && (dest == DestMain || (dest == DestCardA && cardPrefix.0.Some?) || (dest == DestCardB && cardPrefix.1.Some?))
  }

  lemma SendEnabledRules(cardPrefix: (Option<string>, Option<string>))
    ensures !SendEnabled(false, cardPrefix, DestMain) && !SendEnabled(false, cardPrefix, DestCardA)
            && !SendEnabled(false, cardPrefix, DestCardB)
    ensures SendEnabled(true, cardPrefix, DestMain)
    ensures SendEnabled(true, cardPrefix, DestCardA) <==> cardPrefix.0.Some?
    ensures SendEnabled(true, cardPrefix, DestCardB) <==> cardPrefix.1.Some?
  {
  }

  class DeviceMenu {
    /** The destinations of the send actions, in menu order. */
    const dests: seq<string>
    var enabled: seq<bool>
    var annotationsEnabled: bool

    constructor (dests: seq<string>)
      ensures this.dests == dests && enabled == seq(|dests|, _ => false) && !annotationsEnabled
    {
      this.dests := dests;
      enabled := seq(|dests|, _ => false);
      annotationsEnabled := false;
    }

    /**
     * `enable_device_actions`: the main, card A and card B send actions follow
     * `SendEnabled`; the other actions keep their state; fetching annotations is
     * enabled when the device supports it.
     */
    method EnableDeviceActions(enable: bool, cardPrefix: (Option<string>, Option<string>), supportsAnnotations: bool)
      requires |enabled| == |dests|
      modifies this
      ensures |enabled| == |dests|
      ensures forall k :: 0 <= k < |dests| && dests[k] in {DestMain, DestCardA, DestCardB} ==>
                enabled[k] == SendEnabled(enable, cardPrefix, dests[k])
      ensures forall k :: 0 <= k < |dests| && dests[k] !in {DestMain, DestCardA, DestCardB} ==>
                enabled[k] == old(enabled)[k]
      ensures annotationsEnabled == (enable && supportsAnnotations)
    {
      var k := 0;
      while k < |dests|
        invariant 0 <= k <= |dests| && |enabled| == |dests|
        invariant forall i :: 0 <= i < k && dests[i] in {DestMain, DestCardA, DestCardB} ==>
                    enabled[i] == SendEnabled(enable, cardPrefix, dests[i])
        invariant forall i :: (0 <= i < k && dests[i] !in {DestMain, DestCardA, DestCardB}) || k <= i < |dests| ==>
                    enabled[i] == old(enabled)[i]
      {
        var dest := dests[k];
        if dest == DestMain || dest == DestCardA || dest == DestCardB {
          var on: bool;
          if !enable {
            on := false;
          } else if dest == DestMain {
            on := true;
          } else if dest == DestCardA {
            on := cardPrefix.0.Some?;
          } else {
            on := cardPrefix.1.Some?;
          }
          enabled := enabled[k := on];
        }
        k := k + 1;
      }
      annotationsEnabled := enable && supportsAnnotations;
    }
  }

  // ---------------------------------------------------------------- send destinations

  datatype Failure = NoBooksSelected | NoDevice | NoCard

  /** Where a sync event sends the selected books. */
  datatype SendTarget =
    | ToDevice(onCard: Option<string>)
    | ByMail(to: string, formats: seq<string>, subject: string)
    | ChooseRecipients
    | Ignored

  /** `str.partition(':')` keeping the parts before and after the first colon. */
  function SplitDest(dest: string): (r: (string, string))
    ensures ':' !in r.0
    ensures ':' in dest ==> dest == r.0 + ":" + r.1
    ensures ':' !in dest ==> r == (dest, [])
    decreases |dest|
  {
    if dest == [] then ([], [])
    else if dest[0] == ':' then ([], dest[1..])
    else
      var (a, b) := SplitDest(dest[1..]);
      assert [dest[0]] + dest[1..] == dest;
      ([dest[0]] + a, b)
  }

  function StripLowerAll(xs: seq<string>): (r: seq<string>)
    ensures |r| == |xs| && forall k :: 0 <= k < |xs| ==> r[k] == Lower(Strip(xs[k]))
  {
    if xs == [] then [] else [Lower(Strip(xs[0]))] + StripLowerAll(xs[1..])
  }

  /**
   * The `mail:` destination `to;formats;subject`: missing parts are empty, the
   * formats are comma-separated and trimmed and lower-cased, and the subject is
   * everything after the second `;`.
   */
  function MailDestination(sub: string): (r: (string, seq<string>, string))
    ensures ';' !in r.0
    ensures |r.1| >= 1
  {
    SplitPiecesFree(sub, ';');
    var parts := Split(sub, ';');
    var padded := if |parts| >= 3 then parts else if |parts| == 2 then parts + [[]] else parts + [[], []];
    (padded[0], StripLowerAll(Split(padded[1], ',')), Join(padded[2..], ";"))
  }

  /** `dispatch_sync_event`, once the selection and format are known. */
  function DispatchSyncEvent(dest: string, haveRows: bool, deviceConnected: bool, hasCard: bool): (r: Result<SendTarget, Failure>)
    ensures !haveRows ==> r == Err(NoBooksSelected)
    ensures r.Ok? && r.value.ToDevice? ==> deviceConnected && (r.value.onCard.Some? ==> hasCard)
    ensures r == Err(NoCard) ==> deviceConnected && !hasCard
  {
    if !haveRows then Err(NoBooksSelected)
    else
      var (d, sub) := SplitDest(dest);
      if d == "main" || d == "carda" || d == "cardb" then
        if !deviceConnected then Err(NoDevice)
        else if d != "main" && !hasCard then Err(NoCard)
        else Ok(ToDevice(if d == "main" then None else Some(d)))
      else if d == "mail" then
        var (to, fmts, subject) := MailDestination(sub);
        Ok(ByMail(to, fmts, subject))
      else if d == "choosemail" then Ok(ChooseRecipients)
      else Ok(Ignored)
  }

  /** A mail destination gives back its recipient, its formats and its subject, which may itself hold `;`. */
  lemma MailRoundTrip(to: string, fmts: string, subject: string)
    requires ';' !in to && ';' !in fmts
    ensures MailDestination(to + ";" + fmts + ";" + subject) == (to, StripLowerAll(Split(fmts, ',')), subject)
  {
    var pieces := Split(subject, ';');
    MailParts(to, fmts, subject);
    JoinSplit(subject, ';');
    var parts := [to, fmts] + pieces;
    assert parts[0] == to && parts[1] == fmts && parts[2..] == pieces;
  }

  /** The text `to;fmts;subject` splits into `to`, `fmts` and the pieces of the subject. */
  lemma MailParts(to: string, fmts: string, subject: string)
    requires ';' !in to && ';' !in fmts
    ensures Split(to + ";" + fmts + ";" + subject, ';') == [to, fmts] + Split(subject, ';')
  {
    var pieces := Split(subject, ';');
    SplitPiecesFree(subject, ';');
    JoinSplit(subject, ';');
    var parts := [to, fmts] + pieces;
    forall k | 0 <= k < |parts| ensures ';' !in parts[k] {
      if k >= 2 {
        assert parts[k] == pieces[k - 2];
      }
    }
    assert Join(parts, ";") == to + ";" + Join([fmts] + pieces, ";");
    assert ([fmts] + pieces)[1..] == pieces;
    assert Join([fmts] + pieces, ";") == fmts + ";" + Join(pieces, ";");
    assert Join(parts, ";") == to + ";" + fmts + ";" + subject;
    SplitJoin(parts, ';');
  }

  /** A `mail:` destination with no `;` sends to that recipient with no formats given and an empty subject. */
  lemma MailRecipientOnly(to: string)
    requires ';' !in to
    ensures MailDestination(to) == (to, [[]], [])
  {
    SplitNoSep(to, ';');
    var padded := [to] + [[], []];
    assert padded[1] == [] && padded[2..] == [[]];
    assert Split(padded[1], ',') == [[]];
    assert StripLowerAll([[]]) == [[]];
  }

  /** Sending to a card needs a connected device that has a card; the main memory needs only the device. */
  lemma DispatchToDevice(card: string, rest: string, deviceConnected: bool, hasCard: bool)
    requires card in {"main", "carda", "cardb"}
    ensures DispatchSyncEvent(card + ":" + rest, true, deviceConnected, hasCard).Ok? <==>
              deviceConnected && (card == "main" || hasCard)
  {
    SplitDestAt(card, rest);
  }

  lemma {:induction false} SplitDestAt(a: string, b: string)
    requires ':' !in a
    ensures SplitDest(a + ":" + b) == (a, b)
    decreases |a|
  {
    var s := a + ":" + b;
    if a == [] {
      assert s[0] == ':' && s[1..] == b;
    } else {
      assert s[0] == a[0] && s[1..] == a[1..] + ":" + b;
      SplitDestAt(a[1..], b);
      assert [a[0]] + a[1..] == a;
    }
  }
}
