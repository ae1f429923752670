/** The options of one scanner handle, as a frontend sees and sets them, and the scan window
    and frame parameters that follow from them. */
module OptionPanel {
  import opened Arithmetic
  import opened ScanOptions
  import Rows = ScanRows
  import Wire

  const NUM_OPTS := 0
  const MODE_GROUP := 1
  const MODE := 2
  const RESOLUTION := 3
  const SOURCE := 4
  const PREVIEW := 5
  const THRESHOLD := 6
  const GEOMETRY_GROUP := 7
  const TL_X := 8
  const TL_Y := 9
  const BR_X := 10
  const BR_Y := 11
  const NUM_OPTIONS := 12

  const LINEART := "Lineart"
  const HALFTONE := "Halftone"
  const GRAY := "Gray"
  const COLOR := "Color"
  const MODES: seq<string> := [LINEART, HALFTONE, GRAY, COLOR]

  const FLATBED := "Flatbed"
  const ADF := "ADF"
  const ADF_DUPLEX := "ADF Duplex"

  /** Millimetres in 16.16 fixed point: 8.50, 11.69 and 14.00 inches. */
  const MAX_X_FIXED: int32 := 14149222
  const MAX_Y_FIXED: int32 := 19459342
  const MAX_Y_ADF_FIXED: int32 := 23304601
  const PERCENT: int32 := 0x1_0000

  const RESOLUTIONS: seq<int32> := [75, 150, 300, 600, 1200]
  const RESOLUTIONS_ADF: seq<int32> := [75, 150, 300, 600]

  datatype Kind = Int | Fixed | Bool | Text | Group

  datatype Descriptor = Descriptor(kind: Kind, active: bool, settable: bool, constraint: Constraint)

  datatype Value = W(w: int32) | S(s: string)

  predicate IsAdf(source: string) { source == ADF || source == ADF_DUPLEX }

  function MaxY(adf: bool): int32 { if adf then MAX_Y_ADF_FIXED else MAX_Y_FIXED }

  function Sources(hasAdf: bool): seq<string> {
    if hasAdf then [FLATBED, ADF, ADF_DUPLEX] else [FLATBED]
  }

  /** The table entry of an option, for a unit with or without a feeder and the mode and
      source chosen. */
  function Declared(i: nat, hasAdf: bool, mode: string, source: string): (d: Descriptor)
    requires i < NUM_OPTIONS
    ensures d.kind.Text? <==> i == MODE || i == SOURCE
  {
    match i
    case 0 => Descriptor(Int, true, false, Free)
    case 1 => Descriptor(Group, true, false, Free)
    case 2 => Descriptor(Text, true, true, StringList(MODES))
    case 3 => Descriptor(Int, true, true, WordList(if IsAdf(source) then RESOLUTIONS_ADF else RESOLUTIONS))
    case 4 => Descriptor(Text, true, true, StringList(Sources(hasAdf)))
    case 5 => Descriptor(Bool, true, true, Free)
    case 6 => Descriptor(Fixed, mode == LINEART, true, Range(0, 100 * PERCENT, PERCENT))
    case 7 => Descriptor(Group, true, false, Free)
    case 8 => Descriptor(Fixed, true, true, Range(0, MAX_X_FIXED, 0))
    case 9 => Descriptor(Fixed, true, true, Range(0, MaxY(IsAdf(source)), 0))
    case 10 => Descriptor(Fixed, true, true, Range(0, MAX_X_FIXED, 0))
    case _ => Descriptor(Fixed, true, true, Range(0, MaxY(IsAdf(source)), 0))
  }

  /** The value is one its descriptor lets the option have. */
  ghost predicate Holds(d: Descriptor, v: Value) {
    match d.kind
    case Text => v.S? && d.constraint.StringList? && v.s in d.constraint.strings
    case Bool => v.W? && (v.w == 0 || v.w == 1)
    case _ => v.W? && d.constraint.Sound() && Allows(d.constraint, v.w)
  }

  /** Twelve options, each holding a value that the entry due to it in the chosen mode and
      source allows. */
  ghost predicate Proper(hasAdf: bool, val: seq<Value>) {
    && |val| == NUM_OPTIONS && val[MODE].S? && val[SOURCE].S?
    && val[NUM_OPTS] == W(NUM_OPTIONS)
    && forall i :: 0 <= i < NUM_OPTIONS ==> Holds(Declared(i, hasAdf, val[MODE].s, val[SOURCE].s), val[i])
  }

  /** The table shows the entries that the mode and source call for. */
  ghost predicate Shows(hasAdf: bool, opt: seq<Descriptor>, val: seq<Value>)
    requires Proper(hasAdf, val)
  {
    && |opt| == NUM_OPTIONS
    && forall i :: 0 <= i < NUM_OPTIONS ==> opt[i] == Declared(i, hasAdf, val[MODE].s, val[SOURCE].s)
  }

  // ------------------------------------------------- one call, as a function

  datatype Action = GetValue | SetValue | SetAuto | OtherAction

  /** What the caller's pointer leads to. */
  datatype Arg = Null | Given(value: Value)

  datatype Info = Info(inexact: bool, reloadOptions: bool, reloadParams: bool)

  const NO_INFO := Info(false, false, false)

  /** The options after the call, its status, the caller's buffer, and the info flags. */
  datatype Outcome = Outcome(val: seq<Value>, status: Wire.Status, arg: Arg, info: Info)

  /** A caller passes a buffer of the option's own type. */
  ghost predicate Fitting(option: int, action: Action, arg: Arg) {
    arg.Given? && action.SetValue? && 0 <= option < NUM_OPTIONS ==>
      (arg.value.S? <==> option == MODE || option == SOURCE)
  }

  function Lower(c: char): char { if 'A' <= c <= 'Z' then (c as int + 32) as char else c }

  /** strcasecmp, in the C locale. */
  predicate SameFolded(a: string, b: string) {
    |a| == |b| && forall k :: 0 <= k < |a| ==> Lower(a[k]) == Lower(b[k])
  }

  /** The first string of the list that differs only in case, or none. */
  ghost function Match(strings: seq<string>, want: string): (r: seq<string>)
    ensures |r| <= 1 && (r != [] ==> r[0] in strings && SameFolded(r[0], want))
    ensures r == [] ==> forall s :: s in strings ==> !SameFolded(s, want)
  {
    if strings == [] then []
    else if SameFolded(strings[0], want) then [strings[0]]
    else Match(strings[1..], want)
  }

  /** Values set under the flatbed's limits, pulled back inside the ones of the source now
      chosen. */
  ghost function Pulled(val: seq<Value>): seq<Value>
    requires |val| == NUM_OPTIONS && val[SOURCE].S?
    requires val[TL_Y].W? && val[BR_Y].W? && val[RESOLUTION].W?
  {
    var adf := IsAdf(val[SOURCE].s);
    val[TL_Y := W(Least(val[TL_Y].w, MaxY(adf)))][BR_Y := W(Least(val[BR_Y].w, MaxY(adf)))]
       [RESOLUTION := W(if adf then Least(val[RESOLUTION].w, 600) else val[RESOLUTION].w)]
  }

  function Least(a: int32, b: int32): int32 { if a > b then b else a }

  ghost function SetText(hasAdf: bool, val: seq<Value>, option: nat, strings: seq<string>, want: string): Outcome
    requires Proper(hasAdf, val) && (option == MODE || option == SOURCE)
  {
    var found := Match(strings, want);
    if found == [] then Outcome(val, Wire.Inval, Given(S(want)), NO_INFO)
    else Outcome(Pulled(val[option := S(found[0])]), Wire.Good, Given(S(want)), Info(false, true, true))
  }

  /** The options that the size or the place of the frame depends on, and no text. */
  ghost predicate MovesFrame(option: int) {
    option == RESOLUTION || option == PREVIEW || TL_X <= option <= BR_Y
  }

  ghost function SetWord(hasAdf: bool, val: seq<Value>, option: nat, d: Descriptor, v: int32): Outcome
    requires Proper(hasAdf, val) && option < NUM_OPTIONS && d.constraint.Sound()
  {
    if d.kind.Bool? then
      Outcome(val[option := W(if v != 0 then 1 else 0)], Wire.Good, Given(W(v)),
              Info(false, false, MovesFrame(option)))
    else
      var w := Constrained(d.constraint, v);
      Outcome(val[option := W(w)], Wire.Good, Given(W(w)), Info(w != v, false, MovesFrame(option)))
  }

  ghost function Control(hasAdf: bool, scanning: bool, val: seq<Value>, option: int, action: Action, arg: Arg): Outcome
    requires Proper(hasAdf, val) && Fitting(option, action, arg)
  {
    if option < 0 || option >= NUM_OPTIONS then Outcome(val, Wire.Inval, arg, NO_INFO)
    else if scanning then Outcome(val, Wire.DeviceBusy, arg, NO_INFO)
    else
      var d := Declared(option, hasAdf, val[MODE].s, val[SOURCE].s);
      assert Holds(d, val[option]);
      if !d.active then Outcome(val, Wire.Inval, arg, NO_INFO)
      else
        match action
        case GetValue =>
          if arg.Null? || d.kind.Group? then Outcome(val, Wire.Inval, arg, NO_INFO)
          else Outcome(val, Wire.Good, Given(val[option]), NO_INFO)
        case SetValue =>
          if arg.Null? || !d.settable then Outcome(val, Wire.Inval, arg, NO_INFO)
          else if d.kind.Text? then SetText(hasAdf, val, option, d.constraint.strings, arg.value.s)
          else SetWord(hasAdf, val, option, d, arg.value.w)
        case SetAuto => Outcome(val, Wire.Unsupported, arg, NO_INFO)
        case OtherAction => Outcome(val, Wire.Inval, arg, NO_INFO)
  }

  method FindString(list: seq<string>, want: string) returns (i: nat)
    ensures i <= |list| && Match(list, want) == if i < |list| then [list[i]] else []
  {
    i := 0;
    while i < |list| && !SameFolded(list[i], want)
      invariant 0 <= i <= |list| && Match(list, want) == Match(list[i..], want)
    {
      i := i + 1;
    }
  }

  // ---------------------------------------------------------------- the panel

  class Panel {
    const hasAdf: bool
    const opt: array<Descriptor>
    const val: array<Value>

    ghost predicate Valid()
      reads this, opt, val
    {
      && opt.Length == NUM_OPTIONS && val.Length == NUM_OPTIONS
      && Proper(hasAdf, val[..]) && Shows(hasAdf, opt[..], val[..])
    }

    /** The table as a freshly opened handle has it. */
    constructor (hasAdf: bool)
      ensures Valid() && fresh(opt) && fresh(val) && this.hasAdf == hasAdf
      ensures val[..] == Initial()
    {
      this.hasAdf := hasAdf;
      opt := new Descriptor[NUM_OPTIONS](i requires 0 <= i < NUM_OPTIONS => Declared(i, hasAdf, GRAY, FLATBED));
      var start := Initial();
      val := new Value[NUM_OPTIONS](i requires 0 <= i < |start| => start[i]);
      new;
      assert val[..] == Initial();
      InitialProper(hasAdf);
    }

    /** Bring the table in line with the mode and source, and pull back what the source no
        longer allows. */
    method UpdateState()
      requires opt.Length == NUM_OPTIONS && val.Length == NUM_OPTIONS
      requires val[MODE].S? && val[SOURCE].S? && val[TL_Y].W? && val[BR_Y].W? && val[RESOLUTION].W?
      modifies opt, val
      ensures val[..] == Pulled(old(val[..]))
      ensures opt[..] == Retabled(old(opt[..]), old(val[MODE].s), old(val[SOURCE].s))
    {
      var adf := IsAdf(val[SOURCE].s);
      opt[THRESHOLD] := opt[THRESHOLD].(active := val[MODE].s == LINEART);
      opt[TL_Y] := opt[TL_Y].(constraint := Range(0, MaxY(adf), 0));
      opt[BR_Y] := opt[BR_Y].(constraint := Range(0, MaxY(adf), 0));
      if val[TL_Y].w > MaxY(adf) {
        val[TL_Y] := W(MaxY(adf));
      }
      if val[BR_Y].w > MaxY(adf) {
        val[BR_Y] := W(MaxY(adf));
      }
      opt[RESOLUTION] := opt[RESOLUTION].(constraint := WordList(if adf then RESOLUTIONS_ADF else RESOLUTIONS));
      if adf && val[RESOLUTION].w > 600 {
        val[RESOLUTION] := W(600);
      }
    }

    method SetTextOption(option: nat, want: string) returns (status: Wire.Status, info: Info)
      requires Valid() && (option == MODE || option == SOURCE)
      modifies opt, val
      ensures Valid()
      ensures var o := SetText(hasAdf, old(val[..]), option, if option == MODE then MODES else Sources(hasAdf), want);
        val[..] == o.val && status == o.status && info == o.info
    {
      info := NO_INFO;
      var list := opt[option].constraint.strings;
      var i := FindString(list, want);
      if i == |list| {
        return Wire.Inval, info;
      }
      ChooseText(option, list[i]);
      status, info := Wire.Good, Info(false, true, true);
    }

    /** Store the list's own spelling, and bring the table and the other values into line. */
    method ChooseText(option: nat, chosen: string)
      requires Valid() && (option == MODE || option == SOURCE) && chosen in Choices(hasAdf, option)
      modifies opt, val
      ensures Valid() && Proper(hasAdf, old(val[..]))
      ensures val[..] == Pulled(old(val[..])[option := S(chosen)])
    {
      ghost var table, was := opt[..], val[..];
      TextKeepsProper(hasAdf, was, option, chosen);
      RetabledShows(hasAdf, table, was, option, chosen);
      val[option] := S(chosen);
      assert val[..] == was[option := S(chosen)];
      UpdateState();
      assert opt[..] == Retabled(table, val[MODE].s, val[SOURCE].s);
    }

    method SetWordOption(option: nat, v: int32) returns (status: Wire.Status, arg: int32, info: Info)
      requires Valid() && option < NUM_OPTIONS && option != MODE && option != SOURCE && opt[option].settable
      modifies val
      ensures Valid()
      ensures var o := SetWord(hasAdf, old(val[..]), option, opt[option], v);
        val[..] == o.val && status == o.status && Given(W(arg)) == o.arg && info == o.info
    {
      ghost var was := val[..];
      assert Holds(opt[option], was[option]);
      WordKeepsProper(hasAdf, was, option, v);
      var moves := option == RESOLUTION || option == PREVIEW || (option >= TL_X && option <= BR_Y);
      status, arg, info := Wire.Good, v, Info(false, false, moves);
      if opt[option].kind.Bool? {
        val[option] := W(if v != 0 then 1 else 0);
      } else {
        var w: int32 := v;
        match opt[option].constraint {
          case Range(min, max, quant) => w := InRange(v, min, max, quant);
          case WordList(words) => w := PickWord(words, v);
          case _ =>
        }
        val[option] := W(w);
        if w != v {
          arg, info := w, info.(inexact := true);
        }
      }
    }

    /** sane_control_option. */
    method ControlOption(scanning: bool, option: int, action: Action, arg: Arg)
        returns (status: Wire.Status, out: Arg, info: Info)
      requires Valid() && Fitting(option, action, arg)
      modifies opt, val
      ensures Valid()
      ensures Outcome(val[..], status, out, info)
        == Control(hasAdf, scanning, old(val[..]), option, action, arg)
    {
      out, info := arg, NO_INFO;
      if option < 0 || option >= NUM_OPTIONS {
        return Wire.Inval, out, info;
      }
      if scanning {
        return Wire.DeviceBusy, out, info;
      }
      if !opt[option].active {
        return Wire.Inval, out, info;
      }
      assert Holds(opt[option], val[..][option]);
      match action {
        case GetValue =>
          if arg.Null? || opt[option].kind.Group? {
            return Wire.Inval, out, info;
          }
          return Wire.Good, Given(val[option]), info;
        case SetValue =>
          if arg.Null? || !opt[option].settable {
            return Wire.Inval, out, info;
          }
          if opt[option].kind.Text? {
            status, info := SetTextOption(option, arg.value.s);
          } else {
            var w;
            status, w, info := SetWordOption(option, arg.value.w);
            out := Given(W(w));
          }
        case SetAuto =>
          status := Wire.Unsupported;
        case OtherAction =>
          status := Wire.Inval;
      }
    }
  }

  function Initial(): (val: seq<Value>)
    ensures |val| == NUM_OPTIONS
  {
    [W(NUM_OPTIONS), W(0), S(GRAY), W(300), S(FLATBED), W(0), W(50 * PERCENT), W(0),
     W(0), W(0), W(MAX_X_FIXED), W(MAX_Y_FIXED)]
  }

  lemma InitialProper(hasAdf: bool)
    ensures Proper(hasAdf, Initial())
  {
    assert GRAY in MODES && FLATBED in Sources(hasAdf);
    assert RESOLUTIONS[2] == 300;
  }

  /** The table after a change of mode or source. */
  ghost function Retabled(opt: seq<Descriptor>, mode: string, source: string): seq<Descriptor>
    requires |opt| == NUM_OPTIONS
  {
    var y := Range(0, MaxY(IsAdf(source)), 0);
    opt[THRESHOLD := opt[THRESHOLD].(active := mode == LINEART)]
       [TL_Y := opt[TL_Y].(constraint := y)][BR_Y := opt[BR_Y].(constraint := y)]
       [RESOLUTION := opt[RESOLUTION].(constraint := WordList(if IsAdf(source) then RESOLUTIONS_ADF else RESOLUTIONS))]
  }

  lemma ListsSound()
    ensures WordList(RESOLUTIONS).Sound() && WordList(RESOLUTIONS_ADF).Sound()
  {
  }

  /** A resolution that one list has and the other may not: 1200 goes to 600. */
  lemma ResolutionPulled(w: int32)
    requires w in RESOLUTIONS || w in RESOLUTIONS_ADF
    ensures Least(w, 600) in RESOLUTIONS_ADF && w in RESOLUTIONS
  {
  }

  lemma ResolutionHeld(hasAdf: bool, mode: string, source: string, w: int32)
    requires w in RESOLUTIONS
    ensures Holds(Declared(RESOLUTION, hasAdf, mode, source), W(if IsAdf(source) then Least(w, 600) else w))
  {
    ListsSound();
    ResolutionPulled(w);
  }

  lemma CornerHeld(i: nat, hasAdf: bool, mode: string, source: string, y: int32)
    requires (i == TL_Y || i == BR_Y) && 0 <= y
    ensures Holds(Declared(i, hasAdf, mode, source), W(Least(y, MaxY(IsAdf(source)))))
  {
  }

  lemma Shapes(hasAdf: bool, val: seq<Value>)
    requires Proper(hasAdf, val)
    ensures forall i :: 0 <= i < NUM_OPTIONS && i != MODE && i != SOURCE ==> val[i].W?
    ensures 0 <= val[TL_X].w <= MAX_X_FIXED && 0 <= val[BR_X].w <= MAX_X_FIXED
    ensures 0 <= val[TL_Y].w <= MaxY(IsAdf(val[SOURCE].s)) && 0 <= val[BR_Y].w <= MaxY(IsAdf(val[SOURCE].s))
    ensures val[RESOLUTION].w in RESOLUTIONS
    ensures IsAdf(val[SOURCE].s) ==> val[RESOLUTION].w in RESOLUTIONS_ADF
    ensures val[MODE].s in MODES && val[SOURCE].s in Sources(hasAdf)
  {
  }

  function Choices(hasAdf: bool, option: nat): seq<string> {
    if option == MODE then MODES else Sources(hasAdf)
  }

  /** One option, after a new mode or source and the pulling back. */
  lemma OneKeepsProper(hasAdf: bool, val: seq<Value>, option: nat, chosen: string, i: nat)
    requires Proper(hasAdf, val) && (option == MODE || option == SOURCE) && chosen in Choices(hasAdf, option)
    requires i < NUM_OPTIONS && val[TL_Y].W? && val[BR_Y].W? && val[RESOLUTION].W?
    ensures var now := Pulled(val[option := S(chosen)]);
      Holds(Declared(i, hasAdf, now[MODE].s, now[SOURCE].s), now[i])
  {
    var now := Pulled(val[option := S(chosen)]);
    assert Holds(Declared(i, hasAdf, val[MODE].s, val[SOURCE].s), val[i]);
    if i == RESOLUTION {
      Shapes(hasAdf, val);
      ResolutionHeld(hasAdf, now[MODE].s, now[SOURCE].s, val[i].w);
    } else if i == TL_Y || i == BR_Y {
      Shapes(hasAdf, val);
      CornerHeld(i, hasAdf, now[MODE].s, now[SOURCE].s, val[i].w);
    } else if i == option {
      assert now[i] == S(chosen);
    } else {
      StillHolds(i, hasAdf, val[i], val[MODE].s, val[SOURCE].s, now[MODE].s, now[SOURCE].s);
    }
  }

  /** A new mode or source may forbid values that were fine before; once they are pulled back
      every option is proper again. */
  lemma TextKeepsProper(hasAdf: bool, val: seq<Value>, option: nat, chosen: string)
    requires Proper(hasAdf, val) && (option == MODE || option == SOURCE) && chosen in Choices(hasAdf, option)
    ensures val[TL_Y].W? && val[BR_Y].W? && val[RESOLUTION].W?
    ensures Proper(hasAdf, Pulled(val[option := S(chosen)]))
  {
    Shapes(hasAdf, val);
    var now := Pulled(val[option := S(chosen)]);
    forall i | 0 <= i < NUM_OPTIONS ensures Holds(Declared(i, hasAdf, now[MODE].s, now[SOURCE].s), now[i]) {
      OneKeepsProper(hasAdf, val, option, chosen, i);
    }
  }

  lemma StillHolds(i: nat, hasAdf: bool, v: Value, mode: string, source: string, mode': string, source': string)
    requires i < NUM_OPTIONS && i !in {RESOLUTION, TL_Y, BR_Y}
    requires Holds(Declared(i, hasAdf, mode, source), v)
    ensures Holds(Declared(i, hasAdf, mode', source'), v)
  {
  }

  lemma RetabledShows(hasAdf: bool, opt: seq<Descriptor>, val: seq<Value>, option: nat, chosen: string)
    requires Proper(hasAdf, val) && (option == MODE || option == SOURCE) && chosen in Choices(hasAdf, option)
    requires Shows(hasAdf, opt, val)
    requires Proper(hasAdf, Pulled(val[option := S(chosen)]))
    ensures var now := Pulled(val[option := S(chosen)]);
      Shows(hasAdf, Retabled(opt, now[MODE].s, now[SOURCE].s), now)
  {
    var now := Pulled(val[option := S(chosen)]);
    var table := Retabled(opt, now[MODE].s, now[SOURCE].s);
    forall i | 0 <= i < NUM_OPTIONS ensures table[i] == Declared(i, hasAdf, now[MODE].s, now[SOURCE].s) {
      RetabledEntry(i, hasAdf, opt, val[MODE].s, val[SOURCE].s, now[MODE].s, now[SOURCE].s);
    }
  }

  /** Four entries are all that depend on the mode and the source. */
  lemma RetabledEntry(i: nat, hasAdf: bool, opt: seq<Descriptor>, mode: string, source: string,
                      mode': string, source': string)
    requires i < NUM_OPTIONS == |opt| && opt[i] == Declared(i, hasAdf, mode, source)
    ensures Retabled(opt, mode', source')[i] == Declared(i, hasAdf, mode', source')
  {
  }

  lemma WordKeepsProper(hasAdf: bool, val: seq<Value>, option: nat, v: int32)
    requires Proper(hasAdf, val) && option < NUM_OPTIONS && option != MODE && option != SOURCE
    requires Declared(option, hasAdf, val[MODE].s, val[SOURCE].s).settable
    ensures var d := Declared(option, hasAdf, val[MODE].s, val[SOURCE].s);
      && d.constraint.Sound()
      && Proper(hasAdf, SetWord(hasAdf, val, option, d, v).val)
  {
    var d := Declared(option, hasAdf, val[MODE].s, val[SOURCE].s);
    ListsSound();
    ConstrainedAllowed(d.constraint, v);
    var now := SetWord(hasAdf, val, option, d, v).val;
    EntryKeepsProper(hasAdf, val, option, now[option]);
  }

  lemma EntryKeepsProper(hasAdf: bool, val: seq<Value>, option: nat, x: Value)
    requires Proper(hasAdf, val) && option < NUM_OPTIONS && option !in {NUM_OPTS, MODE, SOURCE}
    requires Holds(Declared(option, hasAdf, val[MODE].s, val[SOURCE].s), x)
    ensures Proper(hasAdf, val[option := x])
  {
    var now := val[option := x];
    forall i | 0 <= i < NUM_OPTIONS ensures Holds(Declared(i, hasAdf, now[MODE].s, now[SOURCE].s), now[i]) {
      assert Holds(Declared(i, hasAdf, val[MODE].s, val[SOURCE].s), val[i]);
    }
  }

  // ----------------------------------------------------------- runs of calls

  lemma ControlKeepsProper(hasAdf: bool, scanning: bool, val: seq<Value>, option: int, action: Action, arg: Arg)
    requires Proper(hasAdf, val) && Fitting(option, action, arg)
    ensures Proper(hasAdf, Control(hasAdf, scanning, val, option, action, arg).val)
  {
    if 0 <= option < NUM_OPTIONS && !scanning && action.SetValue? && arg.Given? {
      var d := Declared(option, hasAdf, val[MODE].s, val[SOURCE].s);
      if d.active && d.settable {
        if d.kind.Text? {
          var found := Match(Choices(hasAdf, option), arg.value.s);
          if found != [] {
            TextKeepsProper(hasAdf, val, option, found[0]);
          }
        } else {
          WordKeepsProper(hasAdf, val, option, arg.value.w);
        }
      }
    }
  }

  datatype Call = Call(scanning: bool, option: int, action: Action, arg: Arg)

  ghost predicate AllFitting(calls: seq<Call>) {
    forall k :: 0 <= k < |calls| ==> Fitting(calls[k].option, calls[k].action, calls[k].arg)
  }

  ghost function After(hasAdf: bool, val: seq<Value>, call: Call): (now: seq<Value>)
    requires Proper(hasAdf, val) && Fitting(call.option, call.action, call.arg)
    ensures Proper(hasAdf, now)
  {
    ControlKeepsProper(hasAdf, call.scanning, val, call.option, call.action, call.arg);
    Control(hasAdf, call.scanning, val, call.option, call.action, call.arg).val
  }

  /** The options of a handle after any calls at all. */
  ghost function Run(hasAdf: bool, calls: seq<Call>): (val: seq<Value>)
    requires AllFitting(calls)
    ensures Proper(hasAdf, val)
  {
    if calls == [] then InitialProper(hasAdf); Initial()
    else After(hasAdf, Run(hasAdf, calls[..|calls| - 1]), calls[|calls| - 1])
  }

  /** A frontend at work on a freshly opened handle.  Whatever it asks for, in whatever order,
      every option keeps a value its own table entry allows, and the threshold can be set
      exactly while the mode is line art. */
  method Frontend(hasAdf: bool, calls: seq<Call>) returns (p: Panel)
    requires AllFitting(calls)
    ensures fresh(p) && p.Valid() && p.hasAdf == hasAdf && p.val[..] == Run(hasAdf, calls)
    ensures AllHold(p.opt[..], p.val[..])
    ensures p.opt[THRESHOLD].active <==> p.val[MODE] == S(LINEART)
  {
    p := new Panel(hasAdf);
    var i := 0;
    while i < |calls|
      invariant 0 <= i <= |calls| && fresh(p.opt) && fresh(p.val) && p.Valid() && p.hasAdf == hasAdf
      invariant p.val[..] == Run(hasAdf, calls[..i])
      modifies p.opt, p.val
    {
      RunNext(hasAdf, calls, i);
      Serve(p, calls[i]);
      i := i + 1;
    }
    assert calls[..i] == calls;
    TableHolds(hasAdf, p.opt[..], p.val[..]);
  }

  lemma RunNext(hasAdf: bool, calls: seq<Call>, i: nat)
    requires AllFitting(calls) && i < |calls|
    ensures AllFitting(calls[..i]) && AllFitting(calls[..i + 1])
    ensures Run(hasAdf, calls[..i + 1]) == After(hasAdf, Run(hasAdf, calls[..i]), calls[i])
  {
    assert calls[..i + 1][..i] == calls[..i];
  }

  method Serve(p: Panel, c: Call)
    requires p.Valid() && Fitting(c.option, c.action, c.arg)
    modifies p.opt, p.val
    ensures p.Valid() && p.val[..] == After(p.hasAdf, old(p.val[..]), c)
  {
    var status, out, info := p.ControlOption(c.scanning, c.option, c.action, c.arg);
  }

  ghost predicate AllHold(opt: seq<Descriptor>, val: seq<Value>) {
    |opt| == |val| && forall i :: 0 <= i < |opt| ==> Holds(opt[i], val[i])
  }

  lemma TableHolds(hasAdf: bool, opt: seq<Descriptor>, val: seq<Value>)
    requires Proper(hasAdf, val) && Shows(hasAdf, opt, val)
    ensures AllHold(opt, val)
    ensures opt[THRESHOLD].active <==> val[MODE] == S(LINEART)
  {
  }

  lemma SetTextStores(hasAdf: bool, val: seq<Value>, option: nat, want: string)
    requires Proper(hasAdf, val) && (option == MODE || option == SOURCE)
    requires SetText(hasAdf, val, option, Choices(hasAdf, option), want).status.Good?
    ensures var stored := SetText(hasAdf, val, option, Choices(hasAdf, option), want).val[option];
      stored.S? && SameFolded(stored.s, want) && stored.s in Choices(hasAdf, option)
  {
  }

  ghost predicate Stored(hasAdf: bool, option: int, arg: Arg, done: Outcome) {
    && arg.Given? && 0 <= option < NUM_OPTIONS == |done.val|
    && (arg.value.S? ==>
          && (option == MODE || option == SOURCE) && done.val[option].S?
          && SameFolded(done.val[option].s, arg.value.s) && done.val[option].s in Choices(hasAdf, option))
    && (arg.value.W? && option != PREVIEW ==>
          done.arg == Given(done.val[option]) && (done.info.inexact <==> done.arg != arg))
    && (option == PREVIEW ==>
          arg.value.W? && done.val[option] == W(if arg.value.w != 0 then 1 else 0))
  }

  /** What a successful set leaves in the option: a word as it is handed back to the caller,
      who is told if it was changed; a truth value as zero or one; a string in the list's own
      spelling of what was asked for. */
  lemma SetStores(hasAdf: bool, val: seq<Value>, option: int, arg: Arg, done: Outcome)
    requires Proper(hasAdf, val) && Fitting(option, SetValue, arg)
    requires done == Control(hasAdf, false, val, option, SetValue, arg) && done.status.Good?
    ensures Stored(hasAdf, option, arg, done)
  {
    var d := SetDone(hasAdf, val, option, arg, done);
    if arg.value.S? {
      SetTextStores(hasAdf, val, option, arg.value.s);
    }
  }

  /** A successful set has gone one of two ways. */
  lemma SetDone(hasAdf: bool, val: seq<Value>, option: int, arg: Arg, done: Outcome) returns (d: Descriptor)
    requires Proper(hasAdf, val) && Fitting(option, SetValue, arg)
    requires done == Control(hasAdf, false, val, option, SetValue, arg) && done.status.Good?
    ensures arg.Given? && 0 <= option < NUM_OPTIONS && d == Declared(option, hasAdf, val[MODE].s, val[SOURCE].s)
    ensures d.kind.Bool? <==> option == PREVIEW
    ensures if arg.value.S? then (option == MODE || option == SOURCE)
              && done == SetText(hasAdf, val, option, Choices(hasAdf, option), arg.value.s)
            else d.constraint.Sound() && done == SetWord(hasAdf, val, option, d, arg.value.w)
  {
    d := Declared(option, hasAdf, val[MODE].s, val[SOURCE].s);
    assert Holds(d, val[option]);
  }

  /** A successful set can be read back. */
  lemma SetThenGet(hasAdf: bool, val: seq<Value>, option: int, arg: Arg, done: Outcome)
    requires Proper(hasAdf, val) && Fitting(option, SetValue, arg)
    requires done == Control(hasAdf, false, val, option, SetValue, arg) && done.status.Good?
    ensures 0 <= option < NUM_OPTIONS && Proper(hasAdf, done.val)
    ensures Control(hasAdf, false, done.val, option, GetValue, arg)
      == Outcome(done.val, Wire.Good, Given(done.val[option]), NO_INFO)
  {
    ControlKeepsProper(hasAdf, false, val, option, SetValue, arg);
    var before := Declared(option, hasAdf, val[MODE].s, val[SOURCE].s);
    var after := Declared(option, hasAdf, done.val[MODE].s, done.val[SOURCE].s);
    assert before.active && before.settable;
    assert option == THRESHOLD ==> done.val[MODE] == val[MODE];
    assert after.active && !after.kind.Group?;
  }

  lemma OnlyItself(strings: seq<string>, s: string)
    requires strings == MODES || strings == [FLATBED] || strings == [FLATBED, ADF, ADF_DUPLEX]
    requires s in strings
    ensures Match(strings, s) == [s]
  {
  }

  lemma PulledAlready(hasAdf: bool, val: seq<Value>)
    requires Proper(hasAdf, val)
    ensures val[TL_Y].W? && val[BR_Y].W? && val[RESOLUTION].W? && Pulled(val) == val
  {
    Shapes(hasAdf, val);
  }

  lemma SameText(hasAdf: bool, val: seq<Value>, option: nat)
    requires Proper(hasAdf, val) && (option == MODE || option == SOURCE)
    ensures val[option].S?
    ensures SetText(hasAdf, val, option, Choices(hasAdf, option), val[option].s)
      == Outcome(val, Wire.Good, Given(val[option]), Info(false, true, true))
  {
    Shapes(hasAdf, val);
    OnlyItself(Choices(hasAdf, option), val[option].s);
    assert val[option := val[option]] == val;
    PulledAlready(hasAdf, val);
  }

  lemma SameWord(hasAdf: bool, val: seq<Value>, option: nat, d: Descriptor)
    requires Proper(hasAdf, val) && option < NUM_OPTIONS && option != MODE && option != SOURCE
    requires d == Declared(option, hasAdf, val[MODE].s, val[SOURCE].s) && d.settable
    ensures val[option].W? && d.constraint.Sound()
    ensures SetWord(hasAdf, val, option, d, val[option].w)
      == Outcome(val, Wire.Good, Given(val[option]), Info(false, false, MovesFrame(option)))
  {
    ListsSound();
    assert Holds(d, val[option]);
    if !d.kind.Bool? {
      AllowedIsFixed(d.constraint, val[option].w);
    }
    assert val[option := val[option]] == val;
  }

  /** Setting an option to what it holds changes nothing, and nothing is called inexact. */
  lemma SetWhatYouGot(hasAdf: bool, val: seq<Value>, option: nat)
    requires Proper(hasAdf, val) && option < NUM_OPTIONS
    requires Declared(option, hasAdf, val[MODE].s, val[SOURCE].s).settable
    requires Declared(option, hasAdf, val[MODE].s, val[SOURCE].s).active
    ensures Fitting(option, SetValue, Given(val[option]))
    ensures var o := Control(hasAdf, false, val, option, SetValue, Given(val[option]));
      o.status.Good? && o.val == val && o.arg == Given(val[option]) && !o.info.inexact
  {
    if option == MODE || option == SOURCE {
      SameText(hasAdf, val, option);
    } else {
      SameWord(hasAdf, val, option, Declared(option, hasAdf, val[MODE].s, val[SOURCE].s));
    }
  }

  /** A value the constraint allows is left as it is, if the range ends on a step. */
  lemma AllowedIsFixed(c: Constraint, w: int32)
    requires c.Sound() && Allows(c, w)
    requires c.Range? && c.quant > 0 ==> (c.max - c.min) % c.quant == 0
    ensures Constrained(c, w) == w
  {
    match c {
      case Range(min, max, quant) =>
        if quant > 0 {
          var d := w - min;
          assert d == d / quant * quant + d % quant;
          OnStep(d / quant, quant);
        }
      case WordList(words) => ListKeepsItsOwn(words, w);
      case _ =>
    }
  }

  /** Only a set that succeeds changes anything. */
  lemma OnlySetsChange(hasAdf: bool, scanning: bool, val: seq<Value>, option: int, action: Action, arg: Arg,
                       done: Outcome)
    requires Proper(hasAdf, val) && Fitting(option, action, arg)
    requires done == Control(hasAdf, scanning, val, option, action, arg) && done.val != val
    ensures !scanning && action.SetValue? && done.status.Good?
  {
  }

  /** Pulling back after a text is set leaves the rest alone. */
  lemma PullsOnlyThree(hasAdf: bool, val: seq<Value>, option: nat, s: string, k: nat)
    requires Proper(hasAdf, val) && (option == MODE || option == SOURCE) && k < NUM_OPTIONS && k != option
    ensures val[TL_Y].W? && val[BR_Y].W? && val[RESOLUTION].W?
    ensures var after := Pulled(val[option := S(s)]);
      after[k] != val[k] ==>
        && option == SOURCE && (k == TL_Y || k == BR_Y || k == RESOLUTION)
        && val[k].W? && after[k].W? && after[k].w < val[k].w
  {
    PulledAlready(hasAdf, val);
    if option == MODE {
      assert Pulled(val)[k] == val[k];
    }
  }

  /** A call changes the option it names and no other, except that a new source may pull back
      the vertical corners and the resolution. */
  lemma OthersUntouched(hasAdf: bool, scanning: bool, val: seq<Value>, option: int, action: Action, arg: Arg,
                        done: Outcome, k: nat)
    requires Proper(hasAdf, val) && Fitting(option, action, arg) && k < NUM_OPTIONS && k != option
    requires done == Control(hasAdf, scanning, val, option, action, arg)
    ensures |done.val| == NUM_OPTIONS
    ensures done.val[k] != val[k] ==>
      && option == SOURCE && (k == TL_Y || k == BR_Y || k == RESOLUTION)
      && val[k].W? && done.val[k].W? && done.val[k].w < val[k].w
  {
    if done.val != val {
      OnlySetsChange(hasAdf, scanning, val, option, action, arg, done);
      var d := SetDone(hasAdf, val, option, arg, done);
      if arg.value.S? {
        var found := Match(Choices(hasAdf, option), arg.value.s);
        if found != [] {
          PullsOnlyThree(hasAdf, val, option, found[0], k);
        }
      }
    }
  }

  // -------------------------------------------------------- window and frame

  const MAX_X := 850
  const MAX_Y_UNITS := 1169
  const MAX_Y_ADF_UNITS := 1400
  const MIN_WINDOW := 15

  /** Fixed-point millimetres to hundredths of an inch, rounded. */
  function Units(fixed: int32): (u: nat)
    ensures fixed <= 0 ==> u == 0
  {
    var n := 2000 * fixed + 16646144;
    if n < 0 then 0 else n / 33292288
  }

  datatype Window = Window(left: int, top: int, right: int, bottom: int)

  /** One pair of edges put in order, cut at the end of the bed, and pushed apart to the
      smallest distance the firmware takes, as far as the bed's start allows. */
  function Edges(a: nat, b: nat, max: nat): (e: (int, int)) {
    var lo := if b < a then b else a;
    var hi := if b < a then a else b;
    var far := if hi > max then max else hi;
    var near := if far - lo < MIN_WINDOW then far - MIN_WINDOW else lo;
    (if near < 0 then 0 else near, far)
  }

  function ComputeWindow(val: seq<Value>): Window
    requires |val| == NUM_OPTIONS && val[SOURCE].S?
    requires val[TL_X].W? && val[TL_Y].W? && val[BR_X].W? && val[BR_Y].W?
  {
    var maxY := if IsAdf(val[SOURCE].s) then MAX_Y_ADF_UNITS else MAX_Y_UNITS;
    var x := Edges(Units(val[TL_X].w), Units(val[BR_X].w), MAX_X);
    var y := Edges(Units(val[TL_Y].w), Units(val[BR_Y].w), maxY);
    Window(x.0, y.0, x.1, y.1)
  }

  /** The window lies on the bed whichever way round the corners were given.  It is as wide as
      the firmware wants unless its far edge is nearer to the start of the bed than that: then
      it begins at the start and stays narrow. */
  lemma EdgesOnBed(a: nat, b: nat, max: nat)
    requires max >= MIN_WINDOW
    ensures var (near, far) := Edges(a, b, max);
      && 0 <= near <= far <= max && far == Clamped(if a < b then b else a, 0, max)
      && (far - near >= MIN_WINDOW <==> far >= MIN_WINDOW)
      && (far < MIN_WINDOW ==> near == 0)
      && (Abs(a - b) >= MIN_WINDOW && a <= max && b <= max ==> near == (if a < b then a else b))
    ensures Edges(a, b, max) == Edges(b, a, max)
    ensures NearestStart(a, b, Edges(a, b, max))
  {
  }

  /** The window starts where the nearer corner was put, or no farther before that than it takes
      to be fifteen units wide. */
  ghost predicate NearestStart(a: nat, b: nat, e: (int, int)) {
    && e.0 <= a && e.0 <= b
    && forall start :: 0 <= start <= a && start <= b && WideEnough(start, e.1) ==> start <= e.0
  }

  ghost predicate WideEnough(start: int, far: int) { far - start >= 15 }

  datatype Frame = Frame(format: Rows.Format, pixels: int, lines: int, bytesPerLine: int)

  function EffectiveResolution(val: seq<Value>): int
    requires |val| == NUM_OPTIONS && val[SOURCE].S? && val[PREVIEW].W? && val[RESOLUTION].W?
  {
    if val[PREVIEW].w != 0 then 75
    else if val[RESOLUTION].w > 600 && IsAdf(val[SOURCE].s) then 600
    else val[RESOLUTION].w
  }

  function ComputeFrame(hasAdf: bool, val: seq<Value>): Frame
    requires Proper(hasAdf, val)
  {
    Shapes(hasAdf, val);
    var w := ComputeWindow(val);
    EdgesOnBed(Units(val[TL_X].w), Units(val[BR_X].w), MAX_X);
    EdgesOnBed(Units(val[TL_Y].w), Units(val[BR_Y].w),
               if IsAdf(val[SOURCE].s) then MAX_Y_ADF_UNITS else MAX_Y_UNITS);
    FrameOf(w, EffectiveResolution(val), val[MODE].s)
  }

  /** The frame of a window. */
  function FrameOf(w: Window, dpi: int, mode: string): Frame
    requires w.left <= w.right && w.top <= w.bottom
  {
    var pixels := Dots(w.right - w.left, dpi);
    var lines := Dots(w.bottom - w.top, dpi);
    if mode == COLOR then Frame(Rows.Rgb, pixels, lines, pixels * 3)
    else if mode == LINEART || mode == HALFTONE then
      Frame(Rows.Bilevel, pixels, lines, (pixels + 7) / 8)
    else Frame(Rows.Gray, pixels, lines, pixels)
  }

  function Dots(units: nat, dpi: int): int {
    var n := units * dpi / 100;
    if n < 1 then 1 else n
  }

  lemma DotsBounded(units: nat, dpi: int, most: nat)
    requires units <= most && 75 <= dpi <= 1200
    ensures 1 <= Dots(units, dpi) <= 12 * most + 1
  {
    assert units * dpi <= most * 1200;
  }

  /** Every setting a frontend can arrive at gives a frame that a scan job can be run with:
      at least one pixel and one line, within the bed at the highest resolution, and lines as
      long as the job's rows. */
  lemma FrameUsable(hasAdf: bool, val: seq<Value>, job: Rows.Job)
    requires Proper(hasAdf, val)
    requires var f := ComputeFrame(hasAdf, val);
      job.format == f.format && job.pixels == f.pixels && job.lines == f.lines
    ensures var f := ComputeFrame(hasAdf, val);
      && 1 <= f.pixels <= 12 * MAX_X + 1 && 1 <= f.lines <= 12 * MAX_Y_ADF_UNITS + 1
      && f.bytesPerLine == job.BytesPerLine()
    ensures |job.lut| == 256 && |job.mask| == 128 * 128 ==> job.Valid()
  {
    Shapes(hasAdf, val);
    var maxY := if IsAdf(val[SOURCE].s) then MAX_Y_ADF_UNITS else MAX_Y_UNITS;
    EdgesOnBed(Units(val[TL_X].w), Units(val[BR_X].w), MAX_X);
    EdgesOnBed(Units(val[TL_Y].w), Units(val[BR_Y].w), maxY);
    var w, dpi := ComputeWindow(val), EffectiveResolution(val);
    assert 75 <= dpi <= 1200;
    DotsBounded(w.right - w.left, dpi, MAX_X);
    DotsBounded(w.bottom - w.top, dpi, MAX_Y_ADF_UNITS);
  }

  /** n dots fit into so many hundredths of an inch and n + 1 do not; or not even one does, and
      it is one all the same. */
  ghost predicate AsManyAsFit(n: int, units: int, dpi: int) {
    n >= 1 && (100 * n <= units * dpi || n == 1) && units * dpi < 100 * (n + 1)
  }

  /** The frame has as many pixels and lines as fit into the window, at the resolution that is
      set or at 75 for a preview, in the format of the mode. */
  lemma FrameMeasures(hasAdf: bool, val: seq<Value>)
    requires Proper(hasAdf, val)
    ensures val[PREVIEW].W? && val[RESOLUTION].W? && val[TL_X].W? && val[BR_X].W? && val[TL_Y].W? && val[BR_Y].W?
    ensures var f, w := ComputeFrame(hasAdf, val), ComputeWindow(val);
      var dpi: int := if val[PREVIEW].w != 0 then 75 else val[RESOLUTION].w;
      && AsManyAsFit(f.pixels, w.right - w.left, dpi) && AsManyAsFit(f.lines, w.bottom - w.top, dpi)
      && (f.format.Rgb? <==> val[MODE].s == "Color") && (f.format.Gray? <==> val[MODE].s == "Gray")
      && f.bytesPerLine == (if f.format.Rgb? then 3 * f.pixels else if f.format.Gray? then f.pixels
                            else (f.pixels + 7) / 8)
  {
    Shapes(hasAdf, val);
    var w, dpi := ComputeWindow(val), EffectiveResolution(val);
    EdgesOnBed(Units(val[TL_X].w), Units(val[BR_X].w), MAX_X);
    EdgesOnBed(Units(val[TL_Y].w), Units(val[BR_Y].w),
               if IsAdf(val[SOURCE].s) then MAX_Y_ADF_UNITS else MAX_Y_UNITS);
    FrameOfWindow(w, dpi, val[MODE].s);
  }

  lemma FrameOfWindow(w: Window, dpi: int, mode: string)
    requires w.left <= w.right && w.top <= w.bottom && dpi > 0 && mode in MODES
    ensures var f := FrameOf(w, dpi, mode);
      && AsManyAsFit(f.pixels, w.right - w.left, dpi) && AsManyAsFit(f.lines, w.bottom - w.top, dpi)
      && (f.format.Rgb? <==> mode == "Color") && (f.format.Gray? <==> mode == "Gray")
      && f.bytesPerLine == (if f.format.Rgb? then 3 * f.pixels else if f.format.Gray? then f.pixels
                            else (f.pixels + 7) / 8)
  {
    DotsFit(w.right - w.left, dpi);
    DotsFit(w.bottom - w.top, dpi);
  }

  lemma DotsFit(units: nat, dpi: nat)
    ensures AsManyAsFit(Dots(units, dpi), units, dpi)
  {
    assert units * dpi >= 0;
  }

  /** Fixed-point millimetres go to the nearest hundredth of an inch: an inch is 25.4 mm, and a
      millimetre is 65536. */
  lemma NearestUnit(fixed: int32)
    requires fixed >= 0
    ensures -(254 * 65536) <= 2 * (fixed * 1000 - 254 * 65536 * Units(fixed)) < 254 * 65536
  {
  }

  /** A window whose corners are in order, on the bed and far enough apart is what the corners
      say, and the widest setting gives the whole bed: 8.5 inches by 11.69, or by 14 with the
      feeder. */
  lemma WindowMeasures(hasAdf: bool, val: seq<Value>)
    requires Proper(hasAdf, val)
    ensures val[TL_X].W? && val[BR_X].W? && val[TL_Y].W? && val[BR_Y].W?
    ensures var w := ComputeWindow(val);
      && (Units(val[TL_X].w) + 15 <= Units(val[BR_X].w) ==>
            w.left == Units(val[TL_X].w) && w.right == Units(val[BR_X].w))
      && (Units(val[TL_Y].w) + 15 <= Units(val[BR_Y].w) ==>
            w.top == Units(val[TL_Y].w) && w.bottom == Units(val[BR_Y].w))
    ensures Units(MAX_X_FIXED) == 850 && Units(MAX_Y_FIXED) == 1169 && Units(MAX_Y_ADF_FIXED) == 1400
    ensures
      && val[BR_X].w == MAX_X_FIXED && val[TL_X].w == 0 && val[TL_Y].w == 0
      && val[BR_Y].w == MaxY(IsAdf(val[SOURCE].s))
      ==>
      ComputeWindow(val) == Window(0, 0, 850, if val[SOURCE].s == "Flatbed" then 1169 else 1400)
  {
    Shapes(hasAdf, val);
  }

  /** The ends of the vertical range lie at the end of the bed, rounded down. */
  lemma RangeEnds()
    ensures 10 * MAX_X_FIXED <= 2159 * 65536 < 10 * (MAX_X_FIXED + 1)
    ensures 1000 * MAX_Y_FIXED <= 296926 * 65536 < 1000 * (MAX_Y_FIXED + 1)
    ensures 10 * MAX_Y_ADF_FIXED <= 3556 * 65536 < 10 * (MAX_Y_ADF_FIXED + 1)
  {
  }

  /** A handle that has just been opened scans the whole flatbed in grey at 300 dots to the
      inch, with the threshold in the middle. */
  lemma FreshFrame(hasAdf: bool)
    ensures Proper(hasAdf, Initial())
    ensures ComputeWindow(Initial()) == Window(0, 0, 850, 1169)
    ensures ComputeFrame(hasAdf, Initial()) == Frame(Rows.Gray, 2550, 3507, 2550)
    ensures Initial()[THRESHOLD] == W(50 * 65536)
  {
    InitialProper(hasAdf);
  }

  // ---------------------------------------------------------- what can be set

  /** Two letters that differ at most in case. */
  ghost predicate SameLetter(a: char, b: char) {
    || a == b
    || ('A' <= a <= 'Z' && b as int - 'a' as int == a as int - 'A' as int)
    || ('A' <= b <= 'Z' && a as int - 'a' as int == b as int - 'A' as int)
  }

  /** Strings are compared letter by letter, whatever the case. */
  lemma SpelledAlike(a: string, b: string)
    ensures SameFolded(a, b) <==> |a| == |b| && forall k :: 0 <= k < |a| ==> SameLetter(a[k], b[k])
  {
  }

  /** What a frontend can set: an option that holds a value of its own, while no scan is running;
      the threshold only in line art; and a text only to one of its strings, however it is
      spelled. */
  lemma SetSucceeds(hasAdf: bool, scanning: bool, val: seq<Value>, option: int, arg: Arg)
    requires Proper(hasAdf, val) && Fitting(option, SetValue, arg)
    ensures Control(hasAdf, scanning, val, option, SetValue, arg).status.Good?
      <==>
      && !scanning && arg.Given? && (2 <= option <= 6 || 8 <= option <= 11)
      && (option == 6 ==> val[MODE].s == "Lineart")
      && (option == 2 ==> arg.value.S? && exists s :: s in ["Lineart", "Halftone", "Gray", "Color"] && SameFolded(s, arg.value.s))
      && (option == 4 ==>
            && arg.value.S?
            && exists s :: s in (if hasAdf then ["Flatbed", "ADF", "ADF Duplex"] else ["Flatbed"])
                           && SameFolded(s, arg.value.s))
  {
    if 0 <= option < NUM_OPTIONS {
      var d := Declared(option, hasAdf, val[MODE].s, val[SOURCE].s);
      assert Holds(d, val[option]);
    }
  }

  /** And what it can ask for: any option but a heading, the threshold again only in line art. */
  lemma GetSucceeds(hasAdf: bool, scanning: bool, val: seq<Value>, option: int, arg: Arg)
    requires Proper(hasAdf, val) && Fitting(option, GetValue, arg)
    ensures var done := Control(hasAdf, scanning, val, option, GetValue, arg);
      && (done.status.Good? <==>
            && !scanning && arg.Given? && 0 <= option <= 11 && option != 1 && option != 7
            && (option == 6 ==> val[MODE].s == "Lineart"))
      && done.val == val
      && (done.status.Good? ==> done.arg == Given(val[option]))
  {
  }

  /** Where a set that succeeds leaves the frame or the table different, the frontend is told to
      read it again. */
  lemma ToldToReload(hasAdf: bool, val: seq<Value>, option: int, arg: Arg, done: Outcome)
    requires Proper(hasAdf, val) && Fitting(option, SetValue, arg)
    requires done == Control(hasAdf, false, val, option, SetValue, arg) && done.status.Good?
    ensures Proper(hasAdf, done.val)
    ensures done.info.reloadParams <==> option != THRESHOLD
    ensures done.info.reloadOptions <==> option == MODE || option == SOURCE
    ensures !done.info.reloadParams ==> ComputeFrame(hasAdf, done.val) == ComputeFrame(hasAdf, val)
    ensures !done.info.reloadOptions ==>
      forall i :: 0 <= i < NUM_OPTIONS ==>
        Declared(i, hasAdf, done.val[MODE].s, done.val[SOURCE].s) == Declared(i, hasAdf, val[MODE].s, val[SOURCE].s)
  {
    ControlKeepsProper(hasAdf, false, val, option, SetValue, arg);
    var d := SetDone(hasAdf, val, option, arg, done);
    if arg.value.W? {
      WordReloads(hasAdf, val, option, d, arg.value.w, done);
    }
  }

  lemma WordReloads(hasAdf: bool, val: seq<Value>, option: nat, d: Descriptor, v: int32, done: Outcome)
    requires Proper(hasAdf, val) && Proper(hasAdf, done.val) && option < NUM_OPTIONS
    requires d == Declared(option, hasAdf, val[MODE].s, val[SOURCE].s) && d.settable && d.constraint.Sound()
    requires option != MODE && option != SOURCE && done == SetWord(hasAdf, val, option, d, v)
    ensures done.info.reloadParams <==> option != THRESHOLD
    ensures !done.info.reloadOptions && done.val[MODE] == val[MODE] && done.val[SOURCE] == val[SOURCE]
    ensures option == THRESHOLD ==> ComputeFrame(hasAdf, done.val) == ComputeFrame(hasAdf, val)
  {
    if option == THRESHOLD {
      SameFrame(hasAdf, val, done.val);
    }
  }

  /** The threshold is no part of the frame. */
  lemma SameFrame(hasAdf: bool, val: seq<Value>, now: seq<Value>)
    requires Proper(hasAdf, val) && Proper(hasAdf, now)
    requires forall i :: 0 <= i < NUM_OPTIONS && i != THRESHOLD ==> now[i] == val[i]
    ensures ComputeFrame(hasAdf, now) == ComputeFrame(hasAdf, val)
  {
    assert ComputeWindow(now) == ComputeWindow(val);
    assert EffectiveResolution(now) == EffectiveResolution(val);
  }

  /** The threshold is kept in whole percents from 0 to 100, the nearest to what is asked for. */
  lemma ThresholdStored(hasAdf: bool, val: seq<Value>, v: int32, done: Outcome)
    requires Proper(hasAdf, val) && val[MODE].s == LINEART
    requires done == Control(hasAdf, false, val, THRESHOLD, SetValue, Given(W(v)))
    ensures done.status.Good? && |done.val| == NUM_OPTIONS && done.val[THRESHOLD].W?
    ensures var w := done.val[THRESHOLD].w;
      && w % 65536 == 0 && 0 <= w <= 100 * 65536
      && (0 <= v <= 100 * 65536 ==> -32768 <= v - w < 32768)
      && (v < 0 ==> w == 0) && (v > 100 * 65536 ==> w == 100 * 65536)
  {
    InRangeAllowed(v, 0, 100 * PERCENT, PERCENT);
  }

  /** A corner is kept as asked for, or at the nearer end of the bed of the source. */
  lemma CornerStored(hasAdf: bool, val: seq<Value>, option: int, v: int32, done: Outcome)
    requires Proper(hasAdf, val) && 8 <= option <= 11
    requires done == Control(hasAdf, false, val, option, SetValue, Given(W(v)))
    ensures done.status.Good? && |done.val| == NUM_OPTIONS
    ensures var max := if option % 2 == 0 then 14149222 else if val[SOURCE].s == "Flatbed" then 19459342 else 23304601;
      done.val[option] == W(if v < 0 then 0 else if v > max then max else v)
  {
    Shapes(hasAdf, val);
  }

  /** A resolution is taken from the list of the source, the first nearest to what is asked for
      unless that lies so far below zero that the search goes wrong. */
  lemma ResolutionStored(hasAdf: bool, val: seq<Value>, v: int32, done: Outcome)
    requires Proper(hasAdf, val)
    requires done == Control(hasAdf, false, val, RESOLUTION, SetValue, Given(W(v)))
    ensures done.status.Good? && |done.val| == NUM_OPTIONS && done.val[RESOLUTION].W?
    ensures var list := if val[SOURCE].s == "Flatbed" then [75, 150, 300, 600, 1200] else [75, 150, 300, 600];
      && done.val[RESOLUTION].w in list
      && (FirstNearest(list, v, done.val[RESOLUTION].w) <==> !(75 < v + 0x8000_0000 <= list[|list| - 1]))
  {
    Shapes(hasAdf, val);
    ListsSound();
    var words := if IsAdf(val[SOURCE].s) then RESOLUTIONS_ADF else RESOLUTIONS;
    ListNearest(words, v);
    BestFromList(words, v, |words|);
  }
}
