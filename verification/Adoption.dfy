/** The settings a machine starts with when it is adopted. */
module Adoption {
  import opened Wrappers
  import opened AccessControl

  /** What the operator chooses; `None` and the empty string both mean "not given". */
  datatype AdoptOptions = AdoptOptions(
    displayName: Option<string>,
    enableScreenshots: bool, enableActivity: bool, enableAudit: bool, enableAccessControl: bool,
    accessControlStartTime: Option<string>, accessControlEndTime: Option<string>, accessControlAction: Option<string>)

  datatype ScreenshotSettings = ScreenshotSettings(enabled: bool, intervalSeconds: nat, filterDuplicates: bool)

  datatype ActivitySettings = ActivitySettings(enabled: bool, intervalSeconds: nat)

  datatype AuditSettings = AuditSettings(enabled: bool, security: bool, system: bool, application: bool)

  datatype TextWindow = TextWindow(day: ContractDay, startTime: string, endTime: string)

  datatype AccessSettings = AccessSettings(enabled: bool, violationAction: string, schedule: seq<TextWindow>)

  datatype MachineSettings = MachineSettings(
    screenshots: ScreenshotSettings, activity: ActivitySettings, audit: AuditSettings, accessControl: AccessSettings)

  /** One window for every day of the week, or no window. */
  function InitialSchedule(o: AdoptOptions): seq<TextWindow> {
    if !o.enableAccessControl then []
    else
      var start, end := OrElse(o.accessControlStartTime, "08:00"), OrElse(o.accessControlEndTime, "22:00");
      [TextWindow(Monday, start, end), TextWindow(Tuesday, start, end), TextWindow(Wednesday, start, end),
       TextWindow(Thursday, start, end), TextWindow(Friday, start, end), TextWindow(Saturday, start, end),
       TextWindow(Sunday, start, end)]
  }

  function InitialSettings(o: AdoptOptions): MachineSettings {
    MachineSettings(
      ScreenshotSettings(o.enableScreenshots, if o.enableScreenshots then 300 else 0, true),
      ActivitySettings(o.enableActivity, 10),
      AuditSettings(o.enableAudit, o.enableAudit, o.enableAudit, o.enableAudit),
      AccessSettings(o.enableAccessControl, OrElse(o.accessControlAction, "logoff"), InitialSchedule(o)))
  }

  /** The schedule as the machine reads it, `parse` being its reading of times. */
  function Windows(schedule: seq<TextWindow>, parse: string -> Option<int>): (r: seq<TimeWindow>)
    ensures |r| == |schedule|
    ensures forall i :: 0 <= i < |r| ==>
      r[i] == TimeWindow(schedule[i].day, parse(schedule[i].startTime), parse(schedule[i].endTime))
  {
    seq(|schedule|, i requires 0 <= i < |schedule| =>
      TimeWindow(schedule[i].day, parse(schedule[i].startTime), parse(schedule[i].endTime)))
  }

  function AsSettings(a: AccessSettings, parse: string -> Option<int>): Settings {
    Settings(a.enabled, Some(Windows(a.schedule, parse)))
  }

  /** From the adoption form to the enforcement: on every day of the week, however times are read, the
      adopted machine allows access exactly between the start and the end of the form. */
  lemma {:induction false} AdoptedAllowsDaily(o: AdoptOptions, parse: string -> Option<int>, now: Instant)
    ensures var start := parse(OrElse(o.accessControlStartTime, "08:00"));
      var end := parse(OrElse(o.accessControlEndTime, "22:00"));
      IsAccessAllowed(AsSettings(InitialSettings(o).accessControl, parse), now) <==>
      o.enableAccessControl && start.Some? && end.Some? && start.value <= TimeOfDay(now) < end.value
  {
    var windows := Windows(InitialSchedule(o), parse);
    if o.enableAccessControl {
      var day := (DayOfWeek(now) - 1) % 7;
      assert ToSystemDay(windows[day].day) == DayOfWeek(now);
      assert windows[day] in windows;
    }
  }

  /** What the switches of the form turn on: screenshots every five minutes, activity every ten seconds,
      all audit filters together, and the enforcement with the action chosen. */
  lemma {:induction false} SwitchesDecide(o: AdoptOptions)
    ensures var s := InitialSettings(o);
      && (s.screenshots.enabled <==> o.enableScreenshots)
      && (s.screenshots.intervalSeconds == 5 * 60 <==> o.enableScreenshots)
      && (s.screenshots.intervalSeconds == 0 <==> !o.enableScreenshots) && s.screenshots.filterDuplicates
      && (s.activity.enabled <==> o.enableActivity) && s.activity.intervalSeconds == 10
      && s.audit == (if o.enableAudit then AuditSettings(true, true, true, true)
                     else AuditSettings(false, false, false, false))
      && (s.accessControl.enabled <==> o.enableAccessControl)
      && (o.accessControlAction == None || o.accessControlAction == Some("") ==>
            s.accessControl.violationAction == "logoff")
      && (o.accessControlAction.Some? && o.accessControlAction.value != "" ==>
            s.accessControl.violationAction == o.accessControlAction.value)
  {
  }
}
