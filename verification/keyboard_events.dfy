/** Recorded keyboard and mouse events (`Keyboard.doEvent` and
    `Keyboard.getEventTimeLowBound`): which events the controller accepts
    at which time stamp. Keyboard events are clocked on a fixed grid and
    held back by the time bound the previous key edge left; mouse events are
    not clocked. Only the validation is modelled; what an accepted event
    then does to the key and button state is not. */
module KeyboardEvents {
  import opened Jvm

  /** `CLOCKING_MODULO`: the grid keyboard events must sit on. */
  const CLOCKING_MODULO: int := 66666

  predicate IsMouseEvent(args: seq<string>) {
    |args| > 0 && args[0] in {"MOUSEBUTTON", "XMOUSEMOTION", "YMOUSEMOTION", "ZMOUSEMOTION"}
  }

  /** `getEventTimeLowBound`: the earliest time at which the event `args`,
      wanted at `stamp`, can be placed. The rounding up to the grid is Java
      `long` arithmetic, so it wraps for stamps within one grid step of
      `Long.MAX_VALUE`. */
  function EventTimeLowBound(timeBound: int, stamp: int, args: seq<string>): (t: int)
    requires IsInt64(timeBound) && IsInt64(stamp)
    ensures IsInt64(t)
    ensures IsMouseEvent(args) ==> t == stamp
    ensures !IsMouseEvent(args) && timeBound >= stamp ==> t == timeBound
    ensures stamp <= MAX_LONG - CLOCKING_MODULO + 1 ==> t >= stamp
  {
    if IsMouseEvent(args) then stamp
    else if timeBound >= stamp then timeBound
    else Wrap64(stamp + JavaRem(CLOCKING_MODULO - JavaRem(stamp, CLOCKING_MODULO), CLOCKING_MODULO))
  }

  /** At `Long.MAX_VALUE`, which is off the grid, rounding a keyboard event
      up to the grid overflows and the low bound comes out negative. */
  lemma LowBoundWrapsAtMaxLong(timeBound: int)
    requires IsInt64(timeBound) && timeBound < MAX_LONG
    ensures EventTimeLowBound(timeBound, MAX_LONG, ["PAUSE"]) < 0
  {
    assert JavaRem(MAX_LONG, CLOCKING_MODULO) == 24115;
  }

  /** Past the time bound, a keyboard event is moved to the first grid point
      at or after its stamp, for negative stamps as well as positive ones. */
  lemma LowBoundIsNextGridPoint(timeBound: int, stamp: int, args: seq<string>)
    requires IsInt64(timeBound) && IsInt64(stamp) && stamp <= MAX_LONG - CLOCKING_MODULO + 1
    requires !IsMouseEvent(args) && timeBound < stamp
    ensures var t := EventTimeLowBound(timeBound, stamp, args);
      t % CLOCKING_MODULO == 0 && stamp <= t < stamp + CLOCKING_MODULO
  {
    var up := JavaRem(CLOCKING_MODULO - JavaRem(stamp, CLOCKING_MODULO), CLOCKING_MODULO);
    RoundUpOnGrid(stamp);
    assert IsInt64(stamp + up);
    assert EventTimeLowBound(timeBound, stamp, args) == stamp + up;
  }

  /** The distance Java's expression adds to reach the grid is less than
      one step and lands on the grid. */
  lemma RoundUpOnGrid(stamp: int)
    ensures var up := JavaRem(CLOCKING_MODULO - JavaRem(stamp, CLOCKING_MODULO), CLOCKING_MODULO);
      0 <= up < CLOCKING_MODULO && (stamp + up) % CLOCKING_MODULO == 0
  {
    var rem := JavaRem(stamp, CLOCKING_MODULO);
    var up := JavaRem(CLOCKING_MODULO - rem, CLOCKING_MODULO);
    if rem == 0 {
      assert up == 0;
    } else if stamp > 0 {
      assert up == CLOCKING_MODULO - rem;
    } else {
      assert up == -rem;
    }
  }

  /** The two grid points the message of an off-grid KEYEDGE event
      suggests: the stamp less its Java remainder, and one grid step later,
      both computed as Java `long`s. The first is a grid point within one
      step of the stamp (above it for negative stamps, as the remainder
      truncates); the second wraps when the first is the last grid point
      below `Long.MAX_VALUE`. */
  function Suggestions(stamp: int): (r: (int, int))
    ensures r.0 % CLOCKING_MODULO == 0
    ensures stamp >= 0 ==> r.0 <= stamp < r.0 + CLOCKING_MODULO
    ensures stamp < 0 ==> r.0 - CLOCKING_MODULO < stamp <= r.0
    ensures IsInt64(stamp) ==> IsInt64(r.0) && IsInt64(r.1)
    ensures IsInt64(stamp) && r.0 + CLOCKING_MODULO <= MAX_LONG ==> r.1 == r.0 + CLOCKING_MODULO
    ensures IsInt64(stamp) && r.0 + CLOCKING_MODULO > MAX_LONG ==> r.1 == r.0 + CLOCKING_MODULO - TWO64
  {
    var better0 := stamp - JavaRem(stamp, CLOCKING_MODULO);
    TruncatedGridPoint(stamp);
    (better0, Wrap64(better0 + CLOCKING_MODULO))
  }

  /** Taking off the Java remainder leaves a grid point within one step of
      the stamp, on the side of zero. */
  lemma TruncatedGridPoint(stamp: int)
    ensures var b := stamp - JavaRem(stamp, CLOCKING_MODULO);
      && b % CLOCKING_MODULO == 0
      && (stamp >= 0 ==> b <= stamp < b + CLOCKING_MODULO)
      && (stamp < 0 ==> b - CLOCKING_MODULO < stamp <= b)
  {
    if stamp >= 0 {
      var q := stamp / CLOCKING_MODULO;
      assert stamp - JavaRem(stamp, CLOCKING_MODULO) == q * CLOCKING_MODULO;
    } else {
      var q := (-stamp) / CLOCKING_MODULO;
      assert -stamp == q * CLOCKING_MODULO + (-stamp) % CLOCKING_MODULO;
      assert stamp - JavaRem(stamp, CLOCKING_MODULO) == (-q) * CLOCKING_MODULO;
    }
  }

  /** At `Long.MAX_VALUE` the second suggestion overflows to a negative
      time. */
  lemma SuggestionWrapsAtMaxLong()
    ensures Suggestions(MAX_LONG) == (9223372036854751692, -9223372036854733258)
  {
    assert JavaRem(MAX_LONG, CLOCKING_MODULO) == 24115;
  }

  /** The message of a KEYEDGE event off the grid (or with the wrong number
      of arguments), which suggests the grid points around the stamp. */
  function OffGridMessage(stamp: int): string {
    var remainder := JavaRem(stamp, CLOCKING_MODULO);
    var (better0, better1) := Suggestions(stamp);
    "Invalid KEYEDGE event at " + DecimalString(stamp) + " (remainder = " + DecimalString(remainder)
      + "); try " + DecimalString(better0) + "  or " + DecimalString(better1) + ")"
  }

  /** The key numbers a KEYEDGE event may carry: a base scancode 1..95,
      either plain or with bit 7 set for the `0xE0`-prefixed keys, less 84
      and 198 (the SysRq and Pause/Break codes, which have their own
      handling). */
  predicate IsKeyNumber(scancode: int) {
    && 0 <= scancode / 128 <= 1
    && 1 <= scancode % 128 <= 95
    && scancode != 84 && scancode != 198
  }

  /** The argument check of `doEvent`. `parse` stands for `Integer.parseInt`
      (`None` when it throws); `boundApplies` says whether the event level is
      one that the keyboard time bound constrains. `None` accepts the event;
      every rejection is an `IOException`. */
  function ValidateEvent(timeBound: int, stamp: int, args: seq<string>, boundApplies: bool,
                         parse: string -> Option<int>): (r: Option<Exc>)
    ensures |args| == 0 ==> r == Some(IOError("Empty events not allowed"))
    ensures r.Some? ==> r.value.IOError?
    ensures |args| > 0 && !IsMouseEvent(args) && args[0] != "PAUSE" && args[0] != "KEYEDGE" ==>
      r == Some(IOError("Invalid keyboard event subtype"))
    ensures |args| > 0 && args[0] == "PAUSE" ==>
      (r.None? <==> !(stamp < timeBound && boundApplies) && |args| == 1 && stamp % CLOCKING_MODULO == 0)
    ensures (|args| > 0 && args[0] == "KEYEDGE" && !(stamp < timeBound && boundApplies) &&
             (|args| != 2 || stamp % CLOCKING_MODULO != 0)) ==>
      r == Some(IOError(OffGridMessage(stamp)))
  {
    OnGrid(stamp);
    if |args| == 0 then Some(IOError("Empty events not allowed"))
    else if args[0] == "PAUSE" then
      if stamp < timeBound && boundApplies then Some(IOError("Invalid PAUSE event"))
      else if |args| != 1 || JavaRem(stamp, CLOCKING_MODULO) != 0 then Some(IOError("Invalid PAUSE event"))
      else None
    else if args[0] == "KEYEDGE" then
      if stamp < timeBound && boundApplies then Some(IOError("Invalid KEYEDGE event"))
      else if |args| != 2 || JavaRem(stamp, CLOCKING_MODULO) != 0 then Some(IOError(OffGridMessage(stamp)))
      else
        var scancode := parse(args[1]);
        if scancode.None? then Some(IOError("Invalid KEYEDGE event"))
        else if scancode.value < 1 || (scancode.value > 95 && scancode.value < 129) || scancode.value > 223 then
          Some(IOError("Invalid KEYEDGE event"))
        else if scancode.value == 84 || scancode.value == 198 then Some(IOError("Invalid KEYEDGE event"))
        else None
    else if args[0] == "MOUSEBUTTON" then
      ParsedInRange(args, parse, 0, 4, "Invalid MOUSEBUTTON event")
    else if args[0] == "XMOUSEMOTION" then
      ParsedInRange(args, parse, -255, 255, "Invalid XMOUSEMOTION event")
    else if args[0] == "YMOUSEMOTION" then
      ParsedInRange(args, parse, -255, 255, "Invalid YMOUSEMOTION event")
    else if args[0] == "ZMOUSEMOTION" then
      ParsedInRange(args, parse, -7, 7, "Invalid ZMOUSEMOTION event")
    else Some(IOError("Invalid keyboard event subtype"))
  }

  /** The check of a mouse event's one argument: a missing argument (the
      array index throws) or an unparsable or out-of-range number are all
      reported with the same message. Extra arguments are ignored. */
  function ParsedInRange(args: seq<string>, parse: string -> Option<int>, lo: int, hi: int,
                         message: string): (r: Option<Exc>)
    ensures r.None? <==> |args| >= 2 && parse(args[1]).Some? && lo <= parse(args[1]).value <= hi
    ensures r.Some? ==> r == Some(IOError(message))
  {
    if |args| < 2 then Some(IOError(message))
    else
      var amount := parse(args[1]);
      if amount.None? || amount.value < lo || amount.value > hi then Some(IOError(message))
      else None
  }

  /** A KEYEDGE event is accepted exactly when it is not held back by the
      time bound, has one argument, sits on the grid, and names a key. */
  lemma KeyEdgeAcceptance(timeBound: int, stamp: int, args: seq<string>, boundApplies: bool,
                          parse: string -> Option<int>)
    requires |args| > 0 && args[0] == "KEYEDGE"
    ensures ValidateEvent(timeBound, stamp, args, boundApplies, parse).None? <==>
      && !(stamp < timeBound && boundApplies)
      && |args| == 2
      && stamp % CLOCKING_MODULO == 0
      && parse(args[1]).Some? && IsKeyNumber(parse(args[1]).value)
  {
    OnGrid(stamp);
    if |args| == 2 && parse(args[1]).Some? {
      KeyNumberRanges(parse(args[1]).value);
    }
  }

  /** Java's remainder and the Euclidean one agree on what lies on the grid. */
  lemma OnGrid(stamp: int)
    ensures JavaRem(stamp, CLOCKING_MODULO) == 0 <==> stamp % CLOCKING_MODULO == 0
  {
    if stamp < 0 {
      var q := (-stamp) / CLOCKING_MODULO;
      assert -stamp == CLOCKING_MODULO * q + (-stamp) % CLOCKING_MODULO;
      if stamp % CLOCKING_MODULO == 0 {
        var p := stamp / CLOCKING_MODULO;
        assert -stamp == CLOCKING_MODULO * -p;
      }
    }
  }

  /** The key numbers are the two ranges the source tests, less its two
      exclusions. */
  lemma KeyNumberRanges(s: int)
    ensures IsKeyNumber(s) <==> (1 <= s <= 95 || 129 <= s <= 223) && s != 84 && s != 198
  {
    if 0 <= s < 128 {
      assert s / 128 == 0 && s % 128 == s;
    } else if 128 <= s < 256 {
      assert s / 128 == 1 && s % 128 == s - 128;
    }
  }

  /** Mouse events are not clocked: neither the time bound nor the stamp
      affects whether they are accepted. */
  lemma MouseEventsUnclocked(timeBound: int, stamp: int, timeBound': int, stamp': int,
                             args: seq<string>, boundApplies: bool, parse: string -> Option<int>)
    requires IsMouseEvent(args)
    ensures ValidateEvent(timeBound, stamp, args, boundApplies, parse)
         == ValidateEvent(timeBound', stamp', args, true, parse)
    ensures IsInt64(timeBound) && IsInt64(stamp) ==> EventTimeLowBound(timeBound, stamp, args) == stamp
  {
  }

  /** The low bound is a time at which a well-formed keyboard event is
      accepted, whenever the current time bound is itself on the grid (as
      every bound an accepted event sets is). */
  lemma LowBoundIsAcceptable(timeBound: int, stamp: int, args: seq<string>, parse: string -> Option<int>)
    requires IsInt64(timeBound) && IsInt64(stamp) && stamp <= MAX_LONG - CLOCKING_MODULO + 1
    requires |args| > 0 && (args[0] == "PAUSE" || args[0] == "KEYEDGE")
    requires timeBound % CLOCKING_MODULO == 0
    requires args[0] == "PAUSE" ==> |args| == 1
    requires args[0] == "KEYEDGE" ==> |args| == 2 && parse(args[1]).Some? && IsKeyNumber(parse(args[1]).value)
    ensures ValidateEvent(timeBound, EventTimeLowBound(timeBound, stamp, args), args, true, parse).None?
  {
    var t := EventTimeLowBound(timeBound, stamp, args);
    if timeBound < stamp {
      LowBoundIsNextGridPoint(timeBound, stamp, args);
    }
    assert t >= timeBound && t % CLOCKING_MODULO == 0;
    if args[0] == "KEYEDGE" {
      KeyEdgeAcceptance(timeBound, t, args, true, parse);
    }
  }
}
