/** The `/control/<action>` route: which actions it knows, what each does to the
    light switch, the deferred Wi-Fi switch-off and the time zone, and the reply. */
module Control {

  datatype Action = LightOn | LightOff | DisableWifi | TzSummer | TzWinter | Unknown(name: string)

  /** The path segment that selects each known action. */
  function ActionName(a: Action): string
    requires !a.Unknown?
  {
    match a
    case LightOn => "light_on"
    case LightOff => "light_off"
    case DisableWifi => "disable_wifi"
    case TzSummer => "tz_summer"
    case TzWinter => "tz_winter"
  }

  predicate IsKnownName(s: string) {
    s == "light_on" || s == "light_off" || s == "disable_wifi" || s == "tz_summer" || s == "tz_winter"
  }

  /** The route's if/elif chain on the action string. */
  function ParseAction(s: string): (a: Action)
    ensures a.Unknown? <==> !IsKnownName(s)
    ensures a.Unknown? ==> a.name == s
    ensures !a.Unknown? ==> ActionName(a) == s
  {
    if s == "light_on" then LightOn
    else if s == "light_off" then LightOff
    else if s == "disable_wifi" then DisableWifi
    else if s == "tz_summer" then TzSummer
    else if s == "tz_winter" then TzWinter
    else Unknown(s)
  }

  /** The state the route changes: is_light_allowed, disable_wifi_now and config["tz"]. */
  datatype Controls = Controls(lightAllowed: bool, disableWifiNow: bool, tz: int)

  /** What the route does beyond the fields: redraw the buffered time, blank the
      strip, or re-run the time sync. */
  datatype Effect = Redraw | Blank | Resync | NoEffect

  function Apply(c: Controls, a: Action): Controls {
    match a
    case LightOn => c.(lightAllowed := true)
    case LightOff => c.(lightAllowed := false)
    case DisableWifi => c.(disableWifiNow := true)
    case TzSummer => c.(tz := 2)
    case TzWinter => c.(tz := 1)
    case Unknown(_) => c
  }

  function EffectOf(a: Action): Effect {
    match a
    case LightOn => Redraw
    case LightOff => Blank
    case DisableWifi => NoEffect
    case TzSummer => Resync
    case TzWinter => Resync
    case Unknown(_) => NoEffect
  }

  /** The body of the route's response. */
  function Reply(action: string): string {
    if IsKnownName(action) then "Action (" + action + ") performed"
    else "Unknown action (" + action + ")"
  }

  /** Every known name is read back as its own action. */
  lemma ParseActionName(a: Action)
    requires !a.Unknown?
    ensures ParseAction(ActionName(a)) == a
  {
  }

  /** Each action touches only its own field: the light switch, the deferred
      Wi-Fi flag, or the time zone; an unknown action changes nothing. */
  lemma ApplyFrame(c: Controls, a: Action)
    ensures Apply(c, a).lightAllowed == (if a == LightOn then true else if a == LightOff then false else c.lightAllowed)
    ensures Apply(c, a).disableWifiNow == (a == DisableWifi || c.disableWifiNow)
    ensures Apply(c, a).tz == (if a == TzSummer then 2 else if a == TzWinter then 1 else c.tz)
    ensures a.Unknown? ==> Apply(c, a) == c && EffectOf(a) == NoEffect
  {
  }

  /** Repeating an action has no further effect on the state. */
  lemma ApplyIdempotent(c: Controls, a: Action)
    ensures Apply(Apply(c, a), a) == Apply(c, a)
  {
  }

  /** The last of two light or two time-zone actions wins. */
  lemma ApplyLastWins(c: Controls, a: Action, b: Action)
    requires ((a == LightOn || a == LightOff) && (b == LightOn || b == LightOff)) ||
             ((a == TzSummer || a == TzWinter) && (b == TzSummer || b == TzWinter))
    ensures Apply(Apply(c, a), b) == Apply(c, b)
  {
  }

  /** Which field an action writes: 0 the light switch, 1 the deferred Wi-Fi
      flag, 2 the time zone, 3 none. */
  function Target(a: Action): nat {
    match a
    case LightOn => 0
    case LightOff => 0
    case DisableWifi => 1
    case TzSummer => 2
    case TzWinter => 2
    case Unknown(_) => 3
  }

  /** Actions on different fields commute. */
  lemma ApplyCommutes(c: Controls, a: Action, b: Action)
    requires Target(a) != Target(b)
    ensures Apply(Apply(c, a), b) == Apply(Apply(c, b), a)
  {
  }

  /** The reply names the action, says whether it was known, and ends with
      its closing text. */
  lemma {:induction false} ReplyKnown(action: string)
    ensures var r := Reply(action);
      (IsKnownName(action) ==>
         |r| == |action| + 19 && r[..8] == "Action (" && r[8..8 + |action|] == action &&
         r[8 + |action|..] == ") performed") &&
      (!IsKnownName(action) ==>
         |r| == |action| + 17 && r[..16] == "Unknown action (" && r[16..16 + |action|] == action &&
         r[16 + |action|..] == ")")
  {
    var r := Reply(action);
    if IsKnownName(action) {
      assert r == ("Action (" + action) + ") performed";
    } else {
      assert r == ("Unknown action (" + action) + ")";
    }
  }
}
