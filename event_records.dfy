/** Event records, their classification, and the queue-retrieval rule
    (sdl2hl/events.py).

    A native event record is a tagged union: a discriminant, a timestamp and
    a payload whose layout depends on the discriminant. A view (`Event` and
    its subclasses in the source) does not copy the record: it keeps a
    pointer into the buffer that holds it and reads the record through that
    pointer whenever an accessor is called. */
module EventRecords {
  import EnumTools
  import opened CTypes

  // Event type discriminants, with the values of SDL_EventType in SDL2's
  // SDL_events.h.
  const FIRSTEVENT: nat := 0
  const QUIT: nat := 0x100
  const WINDOWEVENT: nat := 0x200
  const SYSWMEVENT: nat := 0x201
  const KEYDOWN: nat := 0x300
  const KEYUP: nat := 0x301
  const TEXTEDITING: nat := 0x302
  const TEXTINPUT: nat := 0x303
  const KEYMAPCHANGED: nat := 0x304
  const MOUSEMOTION: nat := 0x400
  const MOUSEBUTTONDOWN: nat := 0x401
  const MOUSEBUTTONUP: nat := 0x402
  const MOUSEWHEEL: nat := 0x403
  const JOYAXISMOTION: nat := 0x600
  const JOYBALLMOTION: nat := 0x601
  const JOYHATMOTION: nat := 0x602
  const JOYBUTTONDOWN: nat := 0x603
  const JOYBUTTONUP: nat := 0x604
  const JOYDEVICEADDED: nat := 0x605
  const JOYDEVICEREMOVED: nat := 0x606
  const CONTROLLERAXISMOTION: nat := 0x650
  const CONTROLLERBUTTONDOWN: nat := 0x651
  const CONTROLLERBUTTONUP: nat := 0x652
  const CONTROLLERDEVICEADDED: nat := 0x653
  const CONTROLLERDEVICEREMOVED: nat := 0x654
  const CONTROLLERDEVICEREMAPPED: nat := 0x655
  const FINGERDOWN: nat := 0x700
  const FINGERUP: nat := 0x701
  const FINGERMOTION: nat := 0x702
  const DOLLARGESTURE: nat := 0x800
  const DOLLARRECORD: nat := 0x801
  const MULTIGESTURE: nat := 0x802
  const CLIPBOARDUPDATE: nat := 0x900
  const DROPFILE: nat := 0x1000
  const AUDIODEVICEADDED: nat := 0x1100
  const AUDIODEVICEREMOVED: nat := 0x1101
  const RENDER_TARGETS_RESET: nat := 0x2000
  const RENDER_DEVICE_RESET: nat := 0x2001
  const LASTEVENT: nat := 0xFFFF

  /** A discriminant in [FIRSTEVENT, LASTEVENT]: the range of every event
      type SDL's own sources produce and SDL_RegisterEvents hands out. The
      native field is a 32-bit word, so a type above LASTEVENT pushed by hand
      is outside this model. */
  type Discriminant = t: nat | t <= 0xFFFF

  /** The arms of the native union that the views read, each field with its
      C width. Fields of the same name in different arms are the same C
      field name (`windowID`, `which`, `state`, ...). Where one C name has
      two widths the field is renamed: the motion arm's Uint32 `state` is
      `buttonMask`, and the controller arms' signed `which` is `instance`.
      `Common` stands for the arms no view reads beyond the common header. */
  datatype Payload =
    | Common
    | WindowData(windowID: Uint32, event: Uint8)
    | KeyData(windowID: Uint32, state: Uint8, repeat: Uint8, scancode: Int32, sym: Int32, mod: ModifierWord)
    | TextData(windowID: Uint32, text: TextBuffer)
    | MotionData(windowID: Uint32, which: Uint32, buttonMask: Uint32, x: Int32, y: Int32, xrel: Int32, yrel: Int32)
    | ButtonData(windowID: Uint32, which: Uint32, button: Uint8, state: Uint8, clicks: Uint8, x: Int32, y: Int32)
    | AxisData(instance: Int32, axis: Uint8, value: Int16)
    | ControllerButtonData(instance: Int32, button: Uint8, state: Uint8)

  /** `keysym.mod`, a Uint16, held in the 32-bit word the flag operations
      work on. */
  type ModifierWord = m: bv32 | m <= 0xFFFF

  /** The text arm's `char text[32]`: at most 31 characters before the
      terminating NUL. */
  type TextBuffer = s: string | |s| < 32

  /** One `SDL_Event`: the common header and the payload. */
  datatype Record = Record(eventType: Discriminant, timestamp: Uint32, payload: Payload)

  /** The contents of a record `ffi.new` has just allocated: all zero. */
  const ZeroRecord := Record(0, 0, Common)

  /** The view classes of the source. */
  datatype EventClass =
    | Event
    | QuitEvent
    | WindowEvent
    | KeyboardEvent
    | TextInputEvent
    | MouseMotionEvent
    | MouseButtonEvent
    | ControllerAxisEvent
    | ControllerButtonEvent

  /** `_EVENT_TYPES`: the discriminants that have a view class of their own. */
  const EventTypes: map<nat, EventClass> := map[
    QUIT := QuitEvent,
    WINDOWEVENT := WindowEvent,
    KEYDOWN := KeyboardEvent,
    KEYUP := KeyboardEvent,
    TEXTINPUT := TextInputEvent,
    MOUSEMOTION := MouseMotionEvent,
    MOUSEBUTTONDOWN := MouseButtonEvent,
    MOUSEBUTTONUP := MouseButtonEvent,
    CONTROLLERAXISMOTION := ControllerAxisEvent,
    CONTROLLERBUTTONDOWN := ControllerButtonEvent,
    CONTROLLERBUTTONUP := ControllerButtonEvent
  ]

  /** `_EVENT_TYPES.get(type, Event)`. */
  function ClassOf(t: nat): EventClass
  {
    if t in EventTypes then EventTypes[t] else Event
  }

  /** Each view class is chosen for exactly the discriminants the table binds
      to it, and the base class for every discriminant the table lacks. */
  lemma ClassOfExactly(t: nat)
    ensures ClassOf(t) == QuitEvent <==> t == QUIT
    ensures ClassOf(t) == WindowEvent <==> t == WINDOWEVENT
    ensures ClassOf(t) == KeyboardEvent <==> t == KEYDOWN || t == KEYUP
    ensures ClassOf(t) == TextInputEvent <==> t == TEXTINPUT
    ensures ClassOf(t) == MouseMotionEvent <==> t == MOUSEMOTION
    ensures ClassOf(t) == MouseButtonEvent <==> t == MOUSEBUTTONDOWN || t == MOUSEBUTTONUP
    ensures ClassOf(t) == ControllerAxisEvent <==> t == CONTROLLERAXISMOTION
    ensures ClassOf(t) == ControllerButtonEvent <==> t == CONTROLLERBUTTONDOWN || t == CONTROLLERBUTTONUP
    ensures ClassOf(t) == Event <==> t !in EventTypes
  {
  }

  /** Discriminants with no entry (text editing, mouse wheel, joystick, touch,
      gesture, device and render events, ...) get the base class. */
  lemma UnlistedTypesGetBaseClass()
    ensures ClassOf(TEXTEDITING) == Event && ClassOf(MOUSEWHEEL) == Event
    ensures ClassOf(SYSWMEVENT) == Event && ClassOf(KEYMAPCHANGED) == Event
    ensures forall t :: JOYAXISMOTION <= t <= JOYDEVICEREMOVED ==> ClassOf(t) == Event
    ensures forall t :: FINGERDOWN <= t <= FINGERMOTION ==> ClassOf(t) == Event
    ensures ClassOf(CONTROLLERDEVICEADDED) == Event && ClassOf(DROPFILE) == Event
  {
  }

  /** The union arm a view class reads. */
  predicate ArmMatches(c: EventClass, p: Payload)
  {
    match c
    case Event => true
    case QuitEvent => true
    case WindowEvent => p.WindowData?
    case KeyboardEvent => p.KeyData?
    case TextInputEvent => p.TextData?
    case MouseMotionEvent => p.MotionData?
    case MouseButtonEvent => p.ButtonData?
    case ControllerAxisEvent => p.AxisData?
    case ControllerButtonEvent => p.ControllerButtonData?
  }

  /** A record as the native library fills it: its payload is the arm its
      discriminant selects. */
  predicate WellFormed(r: Record)
  {
    ArmMatches(ClassOf(r.eventType), r.payload)
  }

  /** A pointer to one record in a buffer (`events + i`). */
  datatype RecordPtr = RecordPtr(buf: array<Record>, index: nat)
  {
    predicate Valid()
    {
      index < buf.Length
    }
  }

  /** A typed view: its class, chosen once when it was made, and the pointer
      it reads through. */
  datatype View = View(cls: EventClass, ptr: RecordPtr)
  {
    /** The record the view reads now. */
    function Current(): Record
      reads ptr.buf
      requires ptr.Valid()
    {
      ptr.buf[ptr.index]
    }

    /** The record under the view holds the union arm its class reads, so
        every accessor of the class is defined. */
    predicate Readable()
      reads ptr.buf
      requires ptr.Valid()
    {
      ArmMatches(cls, Current().payload)
    }

    // Accessors common to every view.

    function Type(): Discriminant
      reads ptr.buf
      requires ptr.Valid()
    {
      Current().eventType
    }

    function Timestamp(): Uint32
      reads ptr.buf
      requires ptr.Valid()
    {
      Current().timestamp
    }

    // Accessors of the subclasses; each is defined only on the classes that
    // declare it.

    function WindowId(): Uint32
      reads ptr.buf
      requires ptr.Valid() && Readable()
      requires cls in {WindowEvent, KeyboardEvent, TextInputEvent, MouseMotionEvent, MouseButtonEvent}
    {
      Current().payload.windowID
    }

    function WindowEventKind(): Uint8
      reads ptr.buf
      requires ptr.Valid() && Readable() && cls == WindowEvent
    {
      Current().payload.event
    }

    /** A Uint8 everywhere but in the motion arm, where it is the Uint32
        button mask. */
    function State(): (s: Uint32)
      reads ptr.buf
      requires ptr.Valid() && Readable()
      requires cls in {KeyboardEvent, MouseMotionEvent, MouseButtonEvent, ControllerButtonEvent}
      ensures cls != MouseMotionEvent ==> s < 0x100
    {
      if cls == MouseMotionEvent then Current().payload.buttonMask else Current().payload.state
    }

    function Repeat(): bool
      reads ptr.buf
      requires ptr.Valid() && Readable() && cls == KeyboardEvent
    {
      Current().payload.repeat != 0
    }

    function ScanCode(): Int32
      reads ptr.buf
      requires ptr.Valid() && Readable() && cls == KeyboardEvent
    {
      Current().payload.scancode
    }

    function KeyCode(): Int32
      reads ptr.buf
      requires ptr.Valid() && Readable() && cls == KeyboardEvent
    {
      Current().payload.sym
    }

    /** `mod`: the members of the key-modifier enumeration the modifier word
        overlaps. */
    ghost function Mod(keyMod: seq<EnumTools.Member>): set<EnumTools.Member>
      reads ptr.buf
      requires ptr.Valid() && Readable() && cls == KeyboardEvent
    {
      EnumTools.Items(keyMod, Current().payload.mod, {})
    }

    function Text(): TextBuffer
      reads ptr.buf
      requires ptr.Valid() && Readable() && cls == TextInputEvent
    {
      Current().payload.text
    }

    /** A mouse's Uint32 id, or a controller's signed SDL_JoystickID. */
    function Which(): (w: int)
      reads ptr.buf
      requires ptr.Valid() && Readable()
      requires cls in {MouseMotionEvent, MouseButtonEvent, ControllerAxisEvent, ControllerButtonEvent}
      ensures cls in {MouseMotionEvent, MouseButtonEvent} ==> 0 <= w < 0x1_0000_0000
      ensures cls in {ControllerAxisEvent, ControllerButtonEvent} ==> -0x8000_0000 <= w < 0x8000_0000
    {
      if cls in {MouseMotionEvent, MouseButtonEvent} then Current().payload.which else Current().payload.instance
    }

    function X(): Int32
      reads ptr.buf
      requires ptr.Valid() && Readable() && cls in {MouseMotionEvent, MouseButtonEvent}
    {
      Current().payload.x
    }

    function Y(): Int32
      reads ptr.buf
      requires ptr.Valid() && Readable() && cls in {MouseMotionEvent, MouseButtonEvent}
    {
      Current().payload.y
    }

    function XRel(): Int32
      reads ptr.buf
      requires ptr.Valid() && Readable() && cls == MouseMotionEvent
    {
      Current().payload.xrel
    }

    function YRel(): Int32
      reads ptr.buf
      requires ptr.Valid() && Readable() && cls == MouseMotionEvent
    {
      Current().payload.yrel
    }

    function Button(): Uint8
      reads ptr.buf
      requires ptr.Valid() && Readable() && cls in {MouseButtonEvent, ControllerButtonEvent}
    {
      Current().payload.button
    }

    function Clicks(): Uint8
      reads ptr.buf
      requires ptr.Valid() && Readable() && cls == MouseButtonEvent
    {
      Current().payload.clicks
    }

    function Axis(): Uint8
      reads ptr.buf
      requires ptr.Valid() && Readable() && cls == ControllerAxisEvent
    {
      Current().payload.axis
    }

    function Value(): Int16
      reads ptr.buf
      requires ptr.Valid() && Readable() && cls == ControllerAxisEvent
    {
      Current().payload.value
    }
  }

  /** Event._from_ptr: classifies the record by its discriminant and wraps the
      very pointer it was given. The view's type is the record's
      discriminant, and a well-formed record gives a view whose accessors
      are all defined. */
  function FromPtr(ptr: RecordPtr): (v: View)
    reads ptr.buf
    requires ptr.Valid()
    ensures v.ptr == ptr
    ensures v.Type() == ptr.buf[ptr.index].eventType
    ensures v.cls == ClassOf(ptr.buf[ptr.index].eventType)
    ensures WellFormed(ptr.buf[ptr.index]) ==> v.Readable()
  {
    View(ClassOf(ptr.buf[ptr.index].eventType), ptr)
  }

  /** The view _from_ptr makes over a well-formed record answers each
      accessor of its class from the record's own fields: the window id of
      window, keyboard, text and mouse events, the key fields and the
      modifier set get_items decodes from the modifier word, the mouse and
      controller fields. */
  lemma FromPtrAccessors(ptr: RecordPtr, keyMod: seq<EnumTools.Member>)
    requires ptr.Valid() && WellFormed(ptr.buf[ptr.index])
    ensures var v, r := FromPtr(ptr), ptr.buf[ptr.index];
            && v.Type() == r.eventType && v.Timestamp() == r.timestamp
            && (v.cls == WindowEvent ==>
                  v.WindowId() == r.payload.windowID && v.WindowEventKind() == r.payload.event)
            && (v.cls == KeyboardEvent ==>
                  && v.WindowId() == r.payload.windowID && v.State() == r.payload.state
                  && v.Repeat() == (r.payload.repeat != 0)
                  && v.ScanCode() == r.payload.scancode && v.KeyCode() == r.payload.sym
                  && v.Mod(keyMod) == EnumTools.Items(keyMod, r.payload.mod, {}))
            && (v.cls == TextInputEvent ==> v.WindowId() == r.payload.windowID && v.Text() == r.payload.text)
            && (v.cls == MouseMotionEvent ==>
                  && v.WindowId() == r.payload.windowID
                  && v.Which() == r.payload.which && v.State() == r.payload.buttonMask
                  && v.X() == r.payload.x && v.Y() == r.payload.y
                  && v.XRel() == r.payload.xrel && v.YRel() == r.payload.yrel)
            && (v.cls == MouseButtonEvent ==>
                  && v.WindowId() == r.payload.windowID
                  && v.Which() == r.payload.which && v.Button() == r.payload.button
                  && v.State() == r.payload.state && v.Clicks() == r.payload.clicks
                  && v.X() == r.payload.x && v.Y() == r.payload.y)
            && (v.cls == ControllerAxisEvent ==>
                  v.Which() == r.payload.instance && v.Axis() == r.payload.axis && v.Value() == r.payload.value)
            && (v.cls == ControllerButtonEvent ==>
                  v.Which() == r.payload.instance && v.Button() == r.payload.button && v.State() == r.payload.state)
  {
  }

  /** The `mod` property decodes what the keyboard packed: when the modifier
      word of a keyboard record is the mask of some modifiers of a flag
      enumeration (a zero-valued none member such as KMOD_NONE allowed), the
      view's `mod` is exactly the non-zero modifiers among them. */
  lemma ModRoundTrip(ptr: RecordPtr, keyMod: seq<EnumTools.Member>, pressed: seq<EnumTools.Member>)
    requires ptr.Valid() && WellFormed(ptr.buf[ptr.index])
    requires ClassOf(ptr.buf[ptr.index].eventType) == KeyboardEvent
    requires EnumTools.FlagEnum(keyMod) && forall x :: x in pressed ==> x in keyMod
    requires ptr.buf[ptr.index].payload.mod == EnumTools.GetMask(pressed)
    ensures FromPtr(ptr).Mod(keyMod) == set x | x in pressed && x.value != 0
  {
    EnumTools.GetItemsOfGetMask(keyMod, pressed, {});
  }

  /** With a composite modifier in the enumeration, `mod` reports it as well:
      against none, left control, right control and "either control"
      (KMOD_NONE, KMOD_LCTRL, KMOD_RCTRL, KMOD_CTRL), a left-control press
      reads back as left control and either control. */
  lemma ModWithCompositeExample(ptr: RecordPtr)
    requires ptr.Valid() && WellFormed(ptr.buf[ptr.index])
    requires ClassOf(ptr.buf[ptr.index].eventType) == KeyboardEvent
    requires ptr.buf[ptr.index].payload.mod == 0x40
    ensures var none, lctrl, rctrl, ctrl :=
              EnumTools.Member("none", 0), EnumTools.Member("lctrl", 0x40),
              EnumTools.Member("rctrl", 0x80), EnumTools.Member("ctrl", 0xC0);
            FromPtr(ptr).Mod([none, lctrl, rctrl, ctrl]) == {lctrl, ctrl}
  {
    var none, lctrl, rctrl, ctrl :=
      EnumTools.Member("none", 0), EnumTools.Member("lctrl", 0x40),
      EnumTools.Member("rctrl", 0x80), EnumTools.Member("ctrl", 0xC0);
    var keyMod := [none, lctrl, rctrl, ctrl];
    assert EnumTools.GetMask([lctrl]) == 0x40 by {
      assert [lctrl][..0] == [];
    }
    EnumTools.CompositeReported(keyMod, [lctrl], ctrl, {});
    assert !EnumTools.Overlaps(none.value, 0x40) && !EnumTools.Overlaps(rctrl.value, 0x40);
    assert EnumTools.Overlaps(lctrl.value, 0x40);
  }

  // The native bulk retrieval, as the doc comments of peek and get describe
  // it: up to `quantity` events whose type lies in [minType, maxType], taken
  // in queue order; get also removes them.

  predicate InRange(r: Record, minType: nat, maxType: nat)
  {
    minType <= r.eventType <= maxType
  }

  /** Every event of the queue whose type is in range, in queue order. */
  function Matching(q: seq<Record>, minType: nat, maxType: nat): (m: seq<Record>)
    ensures |m| <= |q|
    ensures forall r :: r in m ==> r in q && InRange(r, minType, maxType)
  {
    if q == [] then []
    else if InRange(q[0], minType, maxType) then [q[0]] + Matching(q[1..], minType, maxType)
    else Matching(q[1..], minType, maxType)
  }

  /** Every event of the queue whose type is out of range, in queue order. */
  function NonMatching(q: seq<Record>, minType: nat, maxType: nat): (o: seq<Record>)
    ensures |o| <= |q|
    ensures forall r :: r in o ==> r in q && !InRange(r, minType, maxType)
  {
    if q == [] then []
    else if InRange(q[0], minType, maxType) then NonMatching(q[1..], minType, maxType)
    else [q[0]] + NonMatching(q[1..], minType, maxType)
  }

  /** The events a retrieval returns. */
  function Retrieved(q: seq<Record>, quantity: nat, minType: nat, maxType: nat): (got: seq<Record>)
    ensures |got| <= quantity && |got| <= |q|
    ensures forall r :: r in got ==> r in q && InRange(r, minType, maxType)
  {
    if q == [] || quantity == 0 then []
    else if InRange(q[0], minType, maxType) then [q[0]] + Retrieved(q[1..], quantity - 1, minType, maxType)
    else Retrieved(q[1..], quantity, minType, maxType)
  }

  /** The queue after a removing retrieval. */
  function Remaining(q: seq<Record>, quantity: nat, minType: nat, maxType: nat): seq<Record>
  {
    if q == [] || quantity == 0 then q
    else if InRange(q[0], minType, maxType) then Remaining(q[1..], quantity - 1, minType, maxType)
    else [q[0]] + Remaining(q[1..], quantity, minType, maxType)
  }

  function Min(a: nat, b: nat): nat
  {
    if a <= b then a else b
  }

  /** A retrieval returns the first `quantity` matching events, or all of
      them when fewer match. */
  lemma {:induction false} RetrievedIsFirstMatching(q: seq<Record>, quantity: nat, minType: nat, maxType: nat)
    ensures var m := Matching(q, minType, maxType);
            Retrieved(q, quantity, minType, maxType) == m[..Min(quantity, |m|)]
  {
    if q != [] && quantity != 0 {
      if InRange(q[0], minType, maxType) {
        RetrievedIsFirstMatching(q[1..], quantity - 1, minType, maxType);
      } else {
        RetrievedIsFirstMatching(q[1..], quantity, minType, maxType);
      }
    }
  }

  /** A removing retrieval neither loses nor invents events: the returned
      events and the remaining queue together are the old queue. */
  lemma {:induction false} RetrievalPartitionsQueue(q: seq<Record>, quantity: nat, minType: nat, maxType: nat)
    ensures multiset(Retrieved(q, quantity, minType, maxType)) + multiset(Remaining(q, quantity, minType, maxType))
         == multiset(q)
  {
    if q != [] && quantity != 0 {
      assert q == [q[0]] + q[1..];
      if InRange(q[0], minType, maxType) {
        RetrievalPartitionsQueue(q[1..], quantity - 1, minType, maxType);
      } else {
        RetrievalPartitionsQueue(q[1..], quantity, minType, maxType);
      }
    }
  }

  /** What stays in the queue is what was there minus the returned events:
      its matching events are the ones after those returned, and every
      out-of-range event stays, in order. */
  lemma {:induction false} RemainingMatching(q: seq<Record>, quantity: nat, minType: nat, maxType: nat)
    ensures var m := Matching(q, minType, maxType);
            Matching(Remaining(q, quantity, minType, maxType), minType, maxType) == m[Min(quantity, |m|)..]
    ensures NonMatching(Remaining(q, quantity, minType, maxType), minType, maxType) == NonMatching(q, minType, maxType)
  {
    if q != [] && quantity != 0 {
      var rest := Remaining(q[1..], if InRange(q[0], minType, maxType) then quantity - 1 else quantity, minType, maxType);
      if InRange(q[0], minType, maxType) {
        RemainingMatching(q[1..], quantity - 1, minType, maxType);
      } else {
        RemainingMatching(q[1..], quantity, minType, maxType);
        assert Remaining(q, quantity, minType, maxType) == [q[0]] + rest;
      }
    }
  }

  /** Where the retrieved events sat: up to some position k the retrieval
      took every in-range event and kept every other one in order, and from
      k on the queue is untouched. So the remaining queue is the old queue
      with exactly the retrieved positions cut out. */
  lemma {:induction false} RemainingSplit(q: seq<Record>, quantity: nat, minType: nat, maxType: nat) returns (k: nat)
    ensures k <= |q|
    ensures Retrieved(q, quantity, minType, maxType) == Matching(q[..k], minType, maxType)
    ensures Remaining(q, quantity, minType, maxType) == NonMatching(q[..k], minType, maxType) + q[k..]
  {
    if q == [] || quantity == 0 {
      k := 0;
    } else {
      var n := if InRange(q[0], minType, maxType) then quantity - 1 else quantity;
      var j := RemainingSplit(q[1..], n, minType, maxType);
      k := j + 1;
      assert q[..k][0] == q[0] && q[..k][1..] == q[1..][..j];
      assert q[k..] == q[1..][j..];
    }
  }

  /** Two removing retrievals in a row return what one retrieval of both
      quantities would: the second starts where the first stopped, so no
      event is returned twice. */
  lemma {:induction false} ConsecutiveRetrievals(q: seq<Record>, n1: nat, n2: nat, minType: nat, maxType: nat)
    ensures Retrieved(q, n1, minType, maxType) + Retrieved(Remaining(q, n1, minType, maxType), n2, minType, maxType)
         == Retrieved(q, n1 + n2, minType, maxType)
  {
    if q != [] && n1 != 0 {
      if InRange(q[0], minType, maxType) {
        ConsecutiveRetrievals(q[1..], n1 - 1, n2, minType, maxType);
      } else {
        ConsecutiveRetrievals(q[1..], n1, n2, minType, maxType);
        var rest := Remaining(q[1..], n1, minType, maxType);
        assert ([q[0]] + rest)[1..] == rest;
      }
    }
  }

  /** A retrieval that returns fewer events than asked for leaves no matching
      event behind. */
  lemma ShortRetrievalDrains(q: seq<Record>, quantity: nat, minType: nat, maxType: nat)
    requires |Retrieved(q, quantity, minType, maxType)| < quantity
    ensures Matching(Remaining(q, quantity, minType, maxType), minType, maxType) == []
  {
    RetrievedIsFirstMatching(q, quantity, minType, maxType);
    RemainingMatching(q, quantity, minType, maxType);
  }

  /** A quit-only peek of five against one quit event followed by three key
      presses returns just the quit event. */
  lemma QuitOnlyRetrieval(quit: Record, key: Record)
    requires quit.eventType == QUIT && key.eventType == KEYDOWN
    ensures Retrieved([quit, key, key, key], 5, QUIT, QUIT) == [quit]
  {
    var q := [quit, key, key, key];
    assert q[1..] == [key, key, key] && q[1..][1..] == [key, key] && q[1..][1..][1..] == [key];
    assert q[1..][1..][1..][1..] == [];
    assert !InRange(key, QUIT, QUIT);
    assert Retrieved([key], 4, QUIT, QUIT) == [];
    assert Retrieved([key, key], 4, QUIT, QUIT) == [];
    assert Retrieved([key, key, key], 4, QUIT, QUIT) == [];
  }
}
