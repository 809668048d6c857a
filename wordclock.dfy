/** The WordClock object: the 117-pixel strip it draws into, its configuration,
    and the flags and buffers its main loop and its control route update. Radio,
    clocks, the light sensor and the network time service are inputs. */
module Clock {
  import opened Render
  import opened Brightness
  import opened Calendar
  import opened TimeSync
  import opened Wifi
  import opened Mdns
  import Scroll
  import Control

  datatype Option<T> = None | Some(value: T)

  datatype Color = Color(r: int, g: int, b: int)

  const Black := Color(0, 0, 0)

  /** config.json: saved networks, the word colour, the time zone in whole
      hours, the two automatic switches and the manual brightness in percent. */
  datatype Config = Config(wifi: seq<Credential>, color: Color, tz: int, autoDst: bool,
                           autoBrightness: bool, brightness: int)

  const DefaultConfig := Config([], Color(255, 0, 0), 1, true, true, 100)

  /** The strip after blanking: black except at ignored indices, which keep their colour. */
  function Blanked(ignore: seq<int>, before: seq<Color>): (after: seq<Color>)
    ensures |after| == |before|
  {
    seq(|before|, i requires 0 <= i < |before| => if i in ignore then before[i] else Black)
  }

  /** The strip after drawing a word set: the words in `color` over a blanked strip. */
  function Rendered(lit: set<nat>, color: Color, ignore: seq<int>, before: seq<Color>): (after: seq<Color>)
    ensures |after| == |before|
  {
    seq(|before|, i requires 0 <= i < |before| =>
      if i in lit then color else if i in ignore then before[i] else Black)
  }

  /** The indices showing `color`. */
  function LitPixels(frame: seq<Color>, color: Color): set<nat> {
    set i: nat | i < |frame| && frame[i] == color
  }

  /** The redraw gate of the main loop: the 12-hour hour or the minute differs
      from the buffered pair. */
  predicate NeedsRedraw(hoursBuffer: nat, minutesBuffer: nat, now: DateTime) {
    hoursBuffer != now.hour % 12 || minutesBuffer != now.minute
  }

  /** With nothing ignored and a colour other than black, the lit pixels are
      exactly the word set, and reading them back gives the time drawn. */
  lemma {:induction false} FaceShowsTime(hours: nat, minutes: nat, color: Color, before: seq<Color>)
    requires hours < 12 && minutes < 60 && color != Black && |before| == PixelCount
    ensures LitPixels(Rendered(LitSet(hours, minutes), color, [], before), color) == LitSet(hours, minutes)
    ensures ReadTime(LitPixels(Rendered(LitSet(hours, minutes), color, [], before), color)) == (hours, minutes)
  {
    var frame := Rendered(LitSet(hours, minutes), color, [], before);
    LitSetInStrip(hours, minutes);
    forall i: nat ensures i in LitPixels(frame, color) <==> i in LitSet(hours, minutes) {
      if i < |frame| {
        assert frame[i] == if i in LitSet(hours, minutes) then color else Black;
      }
    }
    ReadTimeInverts(hours, minutes);
  }

  /** A blanked strip with nothing ignored shows no colour but black. */
  lemma {:induction false} BlankedIsDark(before: seq<Color>, color: Color)
    requires color != Black
    ensures LitPixels(Blanked([], before), color) == {}
  {
    var frame := Blanked([], before);
    forall i: nat | i < |frame| ensures frame[i] != color {
      assert frame[i] == Black;
    }
  }

  /** The buffers start at (0, 0), so 0:00 and 12:00 right after boot are not drawn. */
  lemma BootMidnightNotRedrawn(now: DateTime)
    requires now.hour % 12 == 0 && now.minute == 0
    ensures !NeedsRedraw(0, 0, now)
  {
  }

  /** Once the buffers hold the time, later ticks in the same minute do not redraw. */
  lemma RedrawOncePerMinute(now: DateTime, later: DateTime)
    requires ValidDateTime(now)
    requires later.hour == now.hour && later.minute == now.minute
    ensures !NeedsRedraw(now.hour % 12, now.minute, later)
  {
  }

  /** The readings one pass of the main loop sees. */
  datatype Tick = Tick(
    ipText: string,             // the address shown while scrolling
    scrollNowNs: int,           // monotonic clock at the scroll check
    scrollAfterNs: int,         // monotonic clock once the frame is drawn
    local: DateTime,            // time.localtime() after the scroll, before the sync
    epoch: int,                 // time.time() at the sync gate
    connected: bool,            // wifi.radio.connected
    attempts: seq<SyncAttempt>, // the time queries a sync would make
    ldrReading: int)            // the light sensor's value

  class WordClock {
    const pixels: array<Color>
    var pixelsIgnore: seq<int>
    var config: Config
    var isLightAllowed: bool
    var lastTimeSync: int
    var isTimeSynced: bool
    var disableWifiNow: bool
    var isApStarted: bool
    var wifiEnabled: bool
    var serverRunning: bool
    var apServerRunning: bool
    var mdnsHostname: string
    var hoursBuffer: nat
    var minutesBuffer: nat
    var ldrValues: seq<int>
    var stripBrightness: int
    var textLastScroll: int
    var textXOffset: int
    var textScrollRepeat: nat
    var isTextScroll: bool

    predicate Valid()
      reads this`ldrValues
    {
      pixels.Length == PixelCount && |ldrValues| == WindowSize
    }

    function SyncFields(): SyncState
      reads this`isTimeSynced, this`lastTimeSync
    {
      SyncState(isTimeSynced, lastTimeSync)
    }

    function ScrollFields(): Scroll.ScrollState
      reads this`textLastScroll, this`textXOffset, this`textScrollRepeat, this`isTextScroll
    {
      Scroll.ScrollState(textLastScroll, textXOffset, textScrollRepeat, isTextScroll)
    }

    function ControlFields(): Control.Controls
      reads this`isLightAllowed, this`disableWifiNow, this`config
    {
      Control.Controls(isLightAllowed, disableWifiNow, config.tz)
    }

    /** The object as built at power-up: a dark strip, the default configuration,
        no sync yet, and the address scroll pending. */
    constructor ()
      ensures Valid() && fresh(pixels)
      ensures forall i :: 0 <= i < pixels.Length ==> pixels[i] == Black
      ensures pixelsIgnore == [] && config == DefaultConfig
      ensures isLightAllowed && SyncFields() == InitialSync
      ensures !disableWifiNow && !isApStarted && !serverRunning && !apServerRunning
      ensures hoursBuffer == 0 && minutesBuffer == 0
      ensures ldrValues == InitialWindow() && stripBrightness == 100
      ensures ScrollFields() == Scroll.InitialScroll
    {
      pixels := new Color[PixelCount](_ => Black);
      pixelsIgnore := [];
      config := DefaultConfig;
      isLightAllowed := true;
      lastTimeSync := 0;
      isTimeSynced := false;
      disableWifiNow := false;
      isApStarted := false;
      wifiEnabled := true;
      serverRunning := false;
      apServerRunning := false;
      mdnsHostname := BaseHostname;
      hoursBuffer := 0;
      minutesBuffer := 0;
      ldrValues := InitialWindow();
      stripBrightness := 100;
      textLastScroll := 0;
      textXOffset := Scroll.MatrixWidth;
      textScrollRepeat := 0;
      isTextScroll := true;
    }

    method SetPixelsIgnore(ignore: seq<int>)
      modifies this`pixelsIgnore
      ensures pixelsIgnore == ignore
    {
      pixelsIgnore := ignore;
    }

    /** disable_light: every pixel goes black except the ignored ones. */
    method DisableLight()
      requires Valid()
      modifies pixels
      ensures pixels[..] == Blanked(pixelsIgnore, old(pixels[..]))
    {
      if |pixelsIgnore| > 0 {
        var i := 0;
        while i < pixels.Length
          invariant 0 <= i <= pixels.Length
          invariant forall k :: 0 <= k < i ==> pixels[k] == if k in pixelsIgnore then old(pixels[k]) else Black
          invariant forall k :: i <= k < pixels.Length ==> pixels[k] == old(pixels[k])
        {
          if i !in pixelsIgnore {
            pixels[i] := Black;
          }
          i := i + 1;
        }
      } else {
        forall i | 0 <= i < pixels.Length {
          pixels[i] := Black;
        }
      }
    }

    /** display_time: blank the strip, then light the words for the time in the
        configured colour. Lit words overwrite ignored pixels too. */
    method DisplayTime(hours: nat, minutes: nat)
      requires Valid()
      modifies pixels
      ensures pixels[..] == Rendered(LitSet(hours, minutes), config.color, pixelsIgnore, old(pixels[..]))
      ensures forall i :: i in LitSet(hours, minutes) ==> i < pixels.Length && pixels[i] == config.color
    {
      DisableLight();
      ghost var blanked := pixels[..];
      var color := config.color;
      forall i | 0 <= i < pixels.Length && i in LitSet(hours, minutes) {
        pixels[i] := color;
      }
      LitSetInStrip(hours, minutes);
    }

    /** adjust_brightness: slide the window of sensor readings and set the strip
        to the level of their mean. */
    method AdjustBrightness(reading: int)
      requires Valid()
      modifies this`ldrValues, this`stripBrightness
      ensures Valid()
      ensures ldrValues == Slide(old(ldrValues), reading) == old(ldrValues)[1..] + [reading]
      ensures Sum(ldrValues) == Sum(old(ldrValues)) - old(ldrValues)[0] + reading
      ensures stripBrightness == LevelPercent(Sum(ldrValues))
    {
      SlideFullWindow(ldrValues, reading);
      ldrValues := ldrValues + [reading];
      if |ldrValues| > WindowSize {
        ldrValues := ldrValues[|ldrValues| - WindowSize..];
      }
      stripBrightness := LevelPercent(Sum(ldrValues));
    }

    /** adjust_time: one time query with the zone offset (one hour more in summer
        time when automatic DST is on); the first success after boot repeats the
        query once, later successes record the clock. A failed query changes
        nothing. `attempts` answers the queries in order; `offsets` are the
        offsets asked for. */
    method AdjustTime(attempts: seq<SyncAttempt>) returns (offsets: seq<int>)
      requires |attempts| >= QueriesAllowed(isTimeSynced)
      requires forall k :: 0 <= k < |attempts| ==> ValidDateTime(attempts[k].local)
      modifies this`isTimeSynced, this`lastTimeSync
      ensures SyncFields() == SyncRun(old(SyncFields()), attempts)
      ensures offsets == RequestedOffsets(config.tz, config.autoDst, old(SyncFields()), attempts)
      decreases if isTimeSynced then 0 else 1
    {
      var offset := config.tz;
      if config.autoDst {
        var dst := DaylightSavingTime(attempts[0].local);
        if dst {
          offset := offset + 1;
        }
      }
      offsets := [offset];
      match attempts[0].reply
      case NtpFailed =>
      case NtpTime(clock) =>
        if isTimeSynced {
          lastTimeSync := clock;
        } else {
          isTimeSynced := true;
          var more := AdjustTime(attempts[1..]);
          offsets := offsets + more;
        }
    }

    /** scroll_text on the scroll fields; drawing the text is not modelled. */
    method ScrollText(text: string, nowNs: int, nowAfterNs: int)
      modifies this`textLastScroll, this`textXOffset, this`textScrollRepeat, this`isTextScroll
      ensures ScrollFields() == Scroll.ScrollText(old(ScrollFields()), nowNs, nowAfterNs, |text|, isApStarted)
    {
      if nowNs - textLastScroll > Scroll.ScrollSpeedNs {
        var textWidth := |text| * Scroll.GlyphWidth;
        textXOffset := textXOffset - 1;
        if textXOffset < -(textWidth + Scroll.MatrixWidth) {
          textXOffset := Scroll.MatrixWidth;
          textScrollRepeat := textScrollRepeat + 1;
        }
        textLastScroll := nowAfterNs;
        if !isApStarted && textScrollRepeat >= Scroll.ScrollRepeats {
          isTextScroll := false;
        }
      }
    }

    /** save_credentials: store the network unless its ssid is already stored. */
    method SaveCredentials(ssid: string, password: string)
      modifies this`config
      ensures config == old(config).(wifi := SaveCredential(old(config.wifi), ssid, password))
    {
      var wifiList := config.wifi;
      if !HasSsid(wifiList, ssid) {
        wifiList := wifiList + [Credential(ssid, password)];
        config := config.(wifi := wifiList);
      }
    }

    /** start_wifi: switch the radio on, join a stored network and serve on it,
        or else open the access point and serve there; then claim an mDNS name.
        `accepts` is the radio's verdict on each network, `taken` the candidate
        numbers whose advertisement fails. */
    method StartWifi(accepts: Credential -> bool, taken: set<nat>)
      modifies this`wifiEnabled, this`isApStarted, this`serverRunning, this`apServerRunning, this`mdnsHostname
      ensures wifiEnabled
      ensures AnyAccepted(config.wifi, accepts) ==>
        serverRunning && isApStarted == old(isApStarted) && apServerRunning == old(apServerRunning)
      ensures !AnyAccepted(config.wifi, accepts) ==>
        isApStarted && apServerRunning && serverRunning == old(serverRunning)
      ensures exists n: nat :: n !in taken && (forall k :: 0 <= k < n ==> k in taken) && mdnsHostname == Candidate(n)
    {
      wifiEnabled := true;
      var connected, _ := ConnectToWifi(config.wifi, accepts);
      if connected {
        serverRunning := true;
      } else {
        isApStarted := true;
        apServerRunning := true;
      }
      var number;
      mdnsHostname, number := RegisterMdns(taken);
    }

    /** disable_wifi: clear the deferred request, stop the server, radio off. */
    method DisableWifi()
      modifies this`disableWifiNow, this`serverRunning, this`wifiEnabled
      ensures !disableWifiNow && !serverRunning && !wifiEnabled
    {
      disableWifiNow := false;
      serverRunning := false;
      wifiEnabled := false;
    }

    /** The `/control/<action>` route. `attempts` answers the time queries of the
        two time-zone actions, which write the new zone before they re-sync;
        `offsets` are the UTC offsets those queries ask for. */
    method HandleControl(action: string, attempts: seq<SyncAttempt>) returns (reply: string, offsets: seq<int>)
      requires Valid()
      requires Control.EffectOf(Control.ParseAction(action)) == Control.Resync ==>
        |attempts| >= QueriesAllowed(isTimeSynced) &&
        forall k :: 0 <= k < |attempts| ==> ValidDateTime(attempts[k].local)
      modifies this`isLightAllowed, this`disableWifiNow, this`config, this`isTimeSynced, this`lastTimeSync, pixels
      ensures ControlFields() == Control.Apply(old(ControlFields()), Control.ParseAction(action))
      ensures config == old(config).(tz := config.tz)
      ensures reply == Control.Reply(action)
      ensures var e := Control.EffectOf(Control.ParseAction(action));
        && (e == Control.Redraw ==>
              pixels[..] == Rendered(LitSet(hoursBuffer, minutesBuffer), config.color, pixelsIgnore, old(pixels[..])))
        && (e == Control.Blank ==> pixels[..] == Blanked(pixelsIgnore, old(pixels[..])))
        && (e != Control.Redraw && e != Control.Blank ==> pixels[..] == old(pixels[..]))
        && (e == Control.Resync ==> SyncFields() == SyncRun(old(SyncFields()), attempts))
        && (e != Control.Resync ==> SyncFields() == old(SyncFields()))
      ensures Control.EffectOf(Control.ParseAction(action)) == Control.Resync ==>
        offsets == RequestedOffsets(config.tz, config.autoDst, old(SyncFields()), attempts)
      ensures Control.EffectOf(Control.ParseAction(action)) != Control.Resync ==> offsets == []
    {
      offsets := [];
      if action == "light_on" {
        isLightAllowed := true;
        DisplayTime(hoursBuffer, minutesBuffer);
      } else if action == "light_off" {
        isLightAllowed := false;
        DisableLight();
      } else if action == "disable_wifi" {
        disableWifiNow := true;
      } else if action == "tz_summer" {
        config := config.(tz := 2);
        offsets := AdjustTime(attempts);
      } else if action == "tz_winter" {
        config := config.(tz := 1);
        offsets := AdjustTime(attempts);
      } else {
        return "Unknown action (" + action + ")", offsets;
      }
      return "Action (" + action + ") performed", offsets;
    }

    /** begin: show the four corner dots while connecting, load the stored
        configuration if there is one, bring up Wi-Fi, then clear the strip. */
    method Begin(stored: Option<Config>, accepts: Credential -> bool, taken: set<nat>)
      requires Valid()
      modifies pixels, this`config, this`wifiEnabled, this`isApStarted, this`serverRunning,
        this`apServerRunning, this`mdnsHostname
      ensures Valid()
      ensures forall i :: 0 <= i < pixels.Length ==> pixels[i] == Black
      ensures config == if stored.Some? then stored.value else old(config)
      ensures wifiEnabled
      ensures AnyAccepted(config.wifi, accepts) ==>
        serverRunning && isApStarted == old(isApStarted) && apServerRunning == old(apServerRunning)
      ensures !AnyAccepted(config.wifi, accepts) ==>
        isApStarted && apServerRunning && serverRunning == old(serverRunning)
      ensures exists n: nat :: n !in taken && (forall k :: 0 <= k < n ==> k in taken) && mdnsHostname == Candidate(n)
    {
      var color := config.color;
      pixels[110] := color;
      pixels[112] := color;
      pixels[114] := color;
      pixels[116] := color;
      if stored.Some? {
        config := stored.value;
      }
      StartWifi(accepts, taken);
      forall i | 0 <= i < pixels.Length {
        pixels[i] := Black;
      }
    }

    /** The state the clock part of a pass leaves, given the strip, buffered
        time, brightness window and brightness before it. While the address
        still scrolls nothing changes. Otherwise, with the light allowed, the
        12-hour time is stored, and drawn only when it differs from the stored
        pair; with the light off, the strip is blanked and the pair kept; the
        brightness window slides and the level follows its mean only with the
        light allowed and automatic brightness on. */
    ghost predicate ClockShown(before: seq<Color>, hours0: nat, minutes0: nat, window0: seq<int>, brightness0: int,
                               now: DateTime, reading: int)
      reads this`isTextScroll, this`isLightAllowed, this`hoursBuffer, this`minutesBuffer, this`ldrValues,
        this`stripBrightness, this`config, this`pixelsIgnore, pixels
    {
      var lit := !isTextScroll && isLightAllowed;
      && (lit ==> hoursBuffer == now.hour % 12 && minutesBuffer == now.minute)
      && (!lit ==> hoursBuffer == hours0 && minutesBuffer == minutes0)
      && (lit && NeedsRedraw(hours0, minutes0, now) ==>
            pixels[..] == Rendered(LitSet(now.hour % 12, now.minute), config.color, pixelsIgnore, before))
      && (lit && !NeedsRedraw(hours0, minutes0, now) ==> pixels[..] == before)
      && (!isTextScroll && !isLightAllowed ==> pixels[..] == Blanked(pixelsIgnore, before))
      && (isTextScroll ==> pixels[..] == before)
      && (lit && config.autoBrightness ==>
            ldrValues == Slide(window0, reading) && stripBrightness == LevelPercent(Sum(ldrValues)))
      && (!(lit && config.autoBrightness) ==> ldrValues == window0 && stripBrightness == brightness0)
    }

    /** The clock part of the main loop, once the address scroll has ended:
        with the light allowed, draw the 12-hour time only when it differs from
        the buffered pair, store the pair, and follow the ambient light if
        automatic brightness is on; with the light switched off, keep the strip
        dark. */
    method ShowClock(now: DateTime, ldrReading: int)
      requires Valid() && ValidDateTime(now)
      modifies pixels, this`hoursBuffer, this`minutesBuffer, this`ldrValues, this`stripBrightness
      ensures Valid()
      ensures ClockShown(old(pixels[..]), old(hoursBuffer), old(minutesBuffer), old(ldrValues), old(stripBrightness),
        now, ldrReading)
    {
      if !isTextScroll {
        if isLightAllowed {
          var hours := now.hour % 12;
          var minutes := now.minute;
          if hoursBuffer != hours || minutesBuffer != minutes {
            DisplayTime(hours, minutes);
            hoursBuffer := hours;
            minutesBuffer := minutes;
          }
          if config.autoBrightness {
            AdjustBrightness(ldrReading);
          }
        } else {
          DisableLight();
        }
      }
    }

    /** The scroll and sync state a pass leaves, given the state before it:
        the scroll takes its step (when one is due) only while it runs, and
        the clock is synced exactly when the gate opens, each query answered by
        the next scripted attempt. */
    ghost predicate Advanced(scroll0: Scroll.ScrollState, sync0: SyncState, tick: Tick)
      reads this`textLastScroll, this`textXOffset, this`textScrollRepeat, this`isTextScroll,
        this`isTimeSynced, this`lastTimeSync, this`isApStarted
    {
      && ScrollFields() ==
           (if scroll0.active then Scroll.ScrollText(scroll0, tick.scrollNowNs, tick.scrollAfterNs, |tick.ipText|, isApStarted)
            else scroll0)
      && if SyncDue(tick.connected, isApStarted, sync0.lastSync, tick.epoch) then
           |tick.attempts| >= QueriesAllowed(sync0.synced) && SyncFields() == SyncRun(sync0, tick.attempts)
         else SyncFields() == sync0
    }

    /** The first half of a pass of the main loop: advance the address scroll at
        full brightness while it runs, then sync the clock when due. */
    method ScrollAndSync(tick: Tick)
      requires SyncDue(tick.connected, isApStarted, lastTimeSync, tick.epoch) ==>
        |tick.attempts| >= QueriesAllowed(isTimeSynced) &&
        forall k :: 0 <= k < |tick.attempts| ==> ValidDateTime(tick.attempts[k].local)
      modifies this`stripBrightness, this`textLastScroll, this`textXOffset, this`textScrollRepeat,
        this`isTextScroll, this`isTimeSynced, this`lastTimeSync
      ensures Advanced(old(ScrollFields()), old(SyncFields()), tick)
      ensures stripBrightness == if old(isTextScroll) then 100 else old(stripBrightness)
    {
      if isTextScroll {
        stripBrightness := 100;
        ScrollText(tick.ipText, tick.scrollNowNs, tick.scrollAfterNs);
      }
      if SyncDue(tick.connected, isApStarted, lastTimeSync, tick.epoch) {
        var _ := AdjustTime(tick.attempts);
      }
    }

    /** One pass of the main loop: advance the address scroll while it runs,
        sync the clock when due, show the clock once the scroll has ended, and
        finally carry out a deferred Wi-Fi switch-off. The time shown is the one
        read before the sync. */
    method Loop(tick: Tick)
      requires Valid() && ValidDateTime(tick.local)
      requires SyncDue(tick.connected, isApStarted, lastTimeSync, tick.epoch) ==>
        |tick.attempts| >= QueriesAllowed(isTimeSynced) &&
        forall k :: 0 <= k < |tick.attempts| ==> ValidDateTime(tick.attempts[k].local)
      modifies pixels, this`stripBrightness, this`textLastScroll, this`textXOffset, this`textScrollRepeat,
        this`isTextScroll, this`isTimeSynced, this`lastTimeSync, this`hoursBuffer, this`minutesBuffer,
        this`ldrValues, this`disableWifiNow, this`serverRunning, this`wifiEnabled
      ensures Valid()
      ensures ClockShown(old(pixels[..]), old(hoursBuffer), old(minutesBuffer), old(ldrValues),
        if old(isTextScroll) then 100 else old(stripBrightness), tick.local, tick.ldrReading)
      ensures !disableWifiNow
      ensures wifiEnabled == (old(wifiEnabled) && !old(disableWifiNow))
      ensures serverRunning == (old(serverRunning) && !old(disableWifiNow))
      ensures Advanced(old(ScrollFields()), old(SyncFields()), tick)
    {
      var now := tick.local;
      ScrollAndSync(tick);
      ShowClock(now, tick.ldrReading);
      if disableWifiNow {
        DisableWifi();
      }
    }
  }
}
