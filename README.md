# sdl2hl core, modelled in Dafny

sdl2hl is a thin Python layer over the native SDL2 library. Almost every
function is a one-line call into the native library. This project models the
few pieces that carry logic of their own:

- **Flag projection** (`EnumTools`, `enumtools.dfy`). `get_mask` ORs enum
  members into a 32-bit flag word. `get_items` splits a flag word back into
  the members it touches, minus a blacklist.
- **Error translation** (`Error`, `error.dfy`). `check_int_err` and
  `check_ptr_err` turn a negative count or a null pointer into an `SDLError`
  that carries the native last-error message, and then clear that message.
- **Event classification** (`EventRecords`, `event_records.dfy`). A raw `SDL_Event`
  record is classified through `_EVENT_TYPES` into a typed view, with the
  base `Event` as the fallback. The view does not copy the record: it reads
  it through a pointer into a buffer. The model also covers the accessors
  and the native bulk retrieval that `peek` and `get` are built on.
- **Event retrieval** (`Events`, `events.dfy`). `pump`, `peek`, `get`,
  the shared `_peep` and the `poll` generator run against the native queue.
  `EventSystem` holds that state: the native queue, whether the event
  subsystem is running, `_event_reference_map`, and the native last-error
  state.
- **Points and rectangles** (`Rectangles`, `rect.dfy`). These are mutable
  records with per-field setters and structural `==`/`!=`.
- **Symbol renaming** (`Constants`, `constants.dfy`; `MakeEnum`,
  `makeenum.dfy`; string helpers in `Text`, `text.dfy`). `constants.py`
  re-exports integer `SDL_*`/`SDL*` symbols without their prefix.
  `bin/makeenum.py` generates the source of an `IntEnum` from the symbols
  that carry a prefix.

The fields of the native structs keep their C widths (`CTypes`,
`ctypes.dfy`: `Uint8`, `Int16`, `Int32`, `Uint32`). For example, a
controller axis value is an `Int16`, and a coordinate is an `Int32`.

Native state becomes explicit Dafny state:
- The SDL queue is a `seq<Record>` field of `EventSystem`.
- The error string is a field of `ErrorState`.
- `dir(lib)` is an input sequence.
- `globals()` is a `map` field of `Constants.Namespace`.
- Each `SDL_Event[]` buffer is an `array<Record>`, and a view holds a
  `RecordPtr(buf, index)` into it. Views therefore see later writes to the
  buffer, just as the cffi pointers do.

The numeric event types are pinned to SDL2's `SDL_events.h`
(`SDL_QUIT = 0x100`, `SDL_KEYDOWN = 0x300`, and so on).

`get_items` keeps a member when `item & mask` is non-zero. It does not
require the member to be fully contained in the mask. The model follows the
code (`sdl2hl/enumtools.py:8`): a multi-bit member is returned as soon as
any one of its bits is set. The round trip `get_items(E, get_mask(S)) == S`
is proved for enumerations whose members are distinct single bits, where
the two tests agree.

## Model

| member | source | states |
|---|---|---|
| EnumTools.GetMask | sdl2hl/enumtools.py:2-3 | `reduce` of bitwise OR from 0, as a left fold over the items; its meaning is stated by the GetMask lemmas below |
| EnumTools.GetMaskCovers | sdl2hl/enumtools.py:2-3 | the mask of no items is 0, and every item's bits are in the mask |
| EnumTools.GetMaskCoversAt | sdl2hl/enumtools.py:3 | the item at any index has all its bits in the mask |
| EnumTools.GetMaskLeast | sdl2hl/enumtools.py:3 | the mask is the least word covering every item: any word covering all items covers the mask |
| EnumTools.OverlappingItem | sdl2hl/enumtools.py:3 | a bit pattern the mask overlaps is overlapped by an item, whose index is returned |
| EnumTools.GetMaskOverlap | sdl2hl/enumtools.py:3 | every bit of the mask comes from some item |
| EnumTools.GetMaskSameItems | sdl2hl/enumtools.py:3 | two collections holding the same items have the same mask, whatever the order or repetitions |
| EnumTools.GetItems | sdl2hl/enumtools.py:5-10 | the loop returns exactly the members of the enumeration that are not blacklisted and share a bit with the mask (iff) |
| EnumTools.ItemsSnoc | sdl2hl/enumtools.py:7-9 | each step of the walk adds the current member exactly when it passes the test |
| EnumTools.ItemsNeverZero | sdl2hl/enumtools.py:8 | a zero-valued member is never returned, and mask 0 gives the empty set |
| EnumTools.ItemsMonotone | sdl2hl/enumtools.py:7-9 | adding bits to the mask can only add members to the result |
| EnumTools.SelectedOverlaps | sdl2hl/enumtools.py:2-10 | in a flag enumeration (distinct values, every non-zero member a single bit), a selected non-zero member overlaps the mask of the selection |
| EnumTools.UnselectedDisjoint | sdl2hl/enumtools.py:2-10 | in a flag enumeration, an unselected member (a zero-valued one included) does not overlap the mask of the selection |
| EnumTools.GetItemsOfGetMask | sdl2hl/enumtools.py:2-10 | round trip: in a flag enumeration (a zero "none" member allowed), splitting the mask of a selection gives back the selection's non-zero members minus the blacklist; a selection without the zero member comes back whole |
| EnumTools.CompositeReported | sdl2hl/enumtools.py:5-10 | in any enumeration, a member sharing a bit with some selected member is returned for the selection's mask even when not selected, so composite members break the round trip |
| Error.ErrorState.CheckIntErr | sdl2hl/error.py:8-14 | a value >= 0 (0 included) is returned unchanged and the error state is untouched; a negative value raises SDLError with the message read before clearing, and the state is then empty |
| Error.ErrorState.CheckPtrErr | sdl2hl/error.py:16-22 | a non-null pointer is returned unchanged and the error state is untouched; null raises SDLError with the message read before clearing, and the state is then empty |
| EventRecords.ClassOf | sdl2hl/events.py:110 | `_EVENT_TYPES.get(type, Event)`: the class the table (the constant `EventTypes`, lines 374-386) lists for the discriminant, else the base Event; characterised by ClassOfExactly |
| EventRecords.ClassOfExactly | sdl2hl/events.py:374-386 | each listed discriminant gets its table class (keydown/keyup give the keyboard view, both mouse buttons the button view, both controller buttons the controller-button view); every other discriminant gets the base Event (iff per class) |
| EventRecords.UnlistedTypesGetBaseClass | sdl2hl/events.py:110 | textediting, mousewheel, the joystick, finger and other unlisted types fall back to the base Event |
| EventRecords.FromPtr | sdl2hl/events.py:108-113 | the view wraps the very pointer it was given; its type is the record's discriminant and its class is the table's class for it; a well-formed record gives a view whose accessors are all defined |
| EventRecords.View.Type | sdl2hl/events.py:118-121 | the record's discriminant, read through the view's pointer at call time; each accessor requires its class and a record holding that class's arm |
| EventRecords.View.Timestamp | sdl2hl/events.py:123-126 | the record's timestamp, a Uint32, read at call time; each accessor requires its class and a record holding that class's arm |
| EventRecords.View.WindowId | sdl2hl/events.py:135-240 | the `windowID` field of the window, keyboard, text, motion or button arm; defined only for those classes; each accessor requires its class and a record holding that class's arm |
| EventRecords.View.WindowEventKind | sdl2hl/events.py:140-143 | the `event` field of the window arm; each accessor requires its class and a record holding that class's arm |
| EventRecords.View.State | sdl2hl/events.py:153-306 | the `state` field of the keyboard, motion, button or controller-button arm: a Uint8, except the motion arm's Uint32 button mask; each accessor requires its class and a record holding that class's arm |
| EventRecords.View.Repeat | sdl2hl/events.py:158-161 | the keyboard arm's `repeat` field tested against 0; each accessor requires its class and a record holding that class's arm |
| EventRecords.View.ScanCode | sdl2hl/events.py:163-166 | the keyboard arm's scancode; each accessor requires its class and a record holding that class's arm |
| EventRecords.View.KeyCode | sdl2hl/events.py:168-171 | the keyboard arm's key symbol; each accessor requires its class and a record holding that class's arm |
| EventRecords.View.Mod | sdl2hl/events.py:173-176 | get_items of the key-modifier enumeration and the keyboard arm's modifier word; ModRoundTrip decodes it; each accessor requires its class and a record holding that class's arm |
| EventRecords.View.Text | sdl2hl/events.py:186-189 | the text arm's text; each accessor requires its class and a record holding that class's arm |
| EventRecords.View.Which | sdl2hl/events.py:199-296 | the `which` field of the motion, button, controller-axis or controller-button arm: a Uint32 mouse id, or a signed 32-bit controller instance id; each accessor requires its class and a record holding that class's arm |
| EventRecords.View.X | sdl2hl/events.py:209-265 | the `x` field of the motion or button arm; each accessor requires its class and a record holding that class's arm |
| EventRecords.View.Y | sdl2hl/events.py:219-270 | the `y` field of the motion or button arm; each accessor requires its class and a record holding that class's arm |
| EventRecords.View.XRel | sdl2hl/events.py:224-227 | the motion arm's `xrel`; each accessor requires its class and a record holding that class's arm |
| EventRecords.View.YRel | sdl2hl/events.py:229-232 | the motion arm's `yrel`; each accessor requires its class and a record holding that class's arm |
| EventRecords.View.Button | sdl2hl/events.py:247-301 | the `button` field of the button or controller-button arm; each accessor requires its class and a record holding that class's arm |
| EventRecords.View.Clicks | sdl2hl/events.py:257-260 | the button arm's `clicks`; each accessor requires its class and a record holding that class's arm |
| EventRecords.View.Axis | sdl2hl/events.py:280-283 | the controller-axis arm's `axis`; each accessor requires its class and a record holding that class's arm |
| EventRecords.View.Value | sdl2hl/events.py:285-288 | the controller-axis arm's `value`, an `Int16`, so within -32768..32767 as documented; each accessor requires its class and a record holding that class's arm |
| EventRecords.FromPtrAccessors | sdl2hl/events.py:118-306 | on the view _from_ptr makes over a well-formed record, every accessor of its class is defined and answers from that record: type and timestamp for all classes, and each class's own fields |
| EventRecords.ModRoundTrip | sdl2hl/events.py:173-176 | for a key-modifier flag enumeration (distinct values, every member but a zero KMOD_NONE-like one a single bit), a keyboard view whose modifier word is the mask of some of its members answers `mod` with exactly the non-zero ones among them |
| EventRecords.ModWithCompositeExample | sdl2hl/events.py:173-176 | with the composite KMOD_CTRL (0xC0) in the enumeration, a left-control press (0x40) reads back as {lctrl, ctrl} |
| EventRecords.Matching | sdl2hl/events.py:316-349 | the in-range events of the queue, all taken from the queue |
| EventRecords.NonMatching | sdl2hl/events.py:316-349 | the out-of-range events of the queue, all taken from the queue |
| EventRecords.Retrieved | sdl2hl/events.py:316-349 | a retrieval returns at most `quantity` events, all from the queue and in the type range |
| EventRecords.Remaining | sdl2hl/events.py:334-349 | the queue a get leaves: every event except the retrieved ones, in order; its meaning is stated by RemainingSplit, RetrievalPartitionsQueue and RemainingMatching |
| EventRecords.RetrievedIsFirstMatching | sdl2hl/events.py:316-349 | a retrieval returns the first `quantity` in-range events in queue order, or all of them when fewer match |
| EventRecords.RemainingSplit | sdl2hl/events.py:334-349 | get cuts out exactly the retrieved positions: for some position k, the returned events are the in-range events before k, and the remaining queue is the out-of-range events before k, in order, followed by the queue from k on unchanged |
| EventRecords.RetrievalPartitionsQueue | sdl2hl/events.py:334-349 | the events get returns plus the remaining queue are, as a multiset, the old queue |
| EventRecords.RemainingMatching | sdl2hl/events.py:334-349 | get removes exactly the returned events: the in-range events left are those after the returned ones, and the out-of-range events all stay in order |
| EventRecords.ConsecutiveRetrievals | sdl2hl/events.py:334-349 | a get of n1 followed by a get of n2 returns what one get of n1 + n2 returns: the second continues where the first stopped and never returns the same events again |
| EventRecords.ShortRetrievalDrains | sdl2hl/events.py:334-349 | when get returns fewer than requested, no in-range event remains |
| EventRecords.QuitOnlyRetrieval | sdl2hl/events.py:316-332 | a quit-only retrieval of 5 from [quit, key, key, key] returns just the quit event |
| Events.EventSystem.Pump | sdl2hl/events.py:309-314 | the newly gathered events join the back of the queue |
| Events.EventSystem.NativePeepEvents | sdl2hl/events.py:351-353 | the native bulk call fills the first slots with the retrieved events and returns their count, and with the get action removes them; when the subsystem is down it returns -1 and sets the error message |
| Events.EventSystem.WrapSlots | sdl2hl/events.py:355-359 | view i wraps slot i of the buffer, in order, and every slot's pointer is registered against the buffer |
| Events.EventSystem.Peep | sdl2hl/events.py:351-360 | on success, one view per retrieved event in order, view i over slot i of one fresh buffer holding the i-th event, all registered against it, count <= quantity, queue changed only when getting; on failure SDLError with the native message, no view, and map and queue untouched |
| Events.EventSystem.Peek | sdl2hl/events.py:316-332 | peek is _peep with the peek action and the full default range; the queue is unchanged |
| Events.EventSystem.Get | sdl2hl/events.py:334-349 | get is _peep with the get action and the full default range; exactly the returned events leave the queue |
| Events.EventSystem.NativePollEvent | sdl2hl/events.py:368 | an event is available iff the subsystem runs and the queue is non-empty; then the oldest event moves into the slot |
| Events.EventSystem.Poll | sdl2hl/events.py:362-368 | calling poll makes a generator and runs nothing yet |
| Events.PollGenerator.Next | sdl2hl/events.py:368-371 | as written: each step polls into the same scratch record and yields a view over it, stopping at the first failed poll |
| Events.PollGenerator.NextFresh | sdl2hl/events.py:368-371 | corrected: after a yield the scratch pointer is rebound to a fresh record, so the earlier record is left untouched |
| Events.PollAll | sdl2hl/events.py:362-371 | list(poll()) as written: one view per queued event, with the classes of those events, all wrapping one scratch record that ends holding the last event |
| Events.PollAllFresh | sdl2hl/events.py:362-371 | corrected list(poll()): view i reads its own record, which holds the i-th queued event; the buffers are pairwise distinct |
| Events.PeekThenGet | sdl2hl/events.py:316-349 | peek then get with the same arguments return views over the same records in the same order, and only get consumes them; both raise when the subsystem is down |
| Events.AliasedPollExample | sdl2hl/events.py:362-371 | on [keydown, quit], the first view list(poll()) returns is a keyboard view that reads the quit record, so its key accessors are undefined |
| Events.FreshPollExample | sdl2hl/events.py:362-371 | with fresh records, the same queue gives a readable keyboard view (state 1, scancode 4) and then a quit view |
| Rectangles.Point.constructor | sdl2hl/rect.py:7-14 | Point(x=0, y=0) holds exactly its arguments |
| Rectangles.Point.SetX | sdl2hl/rect.py:27-29 | the x setter sets x and leaves y |
| Rectangles.Point.SetY | sdl2hl/rect.py:36-38 | the y setter sets y and leaves x |
| Rectangles.Point.Equals | sdl2hl/rect.py:16-17 | __eq__: the other object is a Point with equal x and y, as they are at the moment of comparison |
| Rectangles.Point.NotEquals | sdl2hl/rect.py:19-20 | __ne__: the negation of __eq__ |
| Rectangles.PointEquality | sdl2hl/rect.py:16-20 | point equality is reflexive, symmetric and transitive; a non-Point (None included) is never equal; `!=` is the negation of `==` |
| Rectangles.PointEqualsIffSameCoordinates | sdl2hl/rect.py:16-17 | two points are equal iff both coordinates agree |
| Rectangles.Rect.constructor | sdl2hl/rect.py:64-73 | Rect(x=0, y=0, w=0, h=0) holds exactly its arguments |
| Rectangles.Rect.SetX | sdl2hl/rect.py:86-88 | the x setter sets x and leaves the other three fields |
| Rectangles.Rect.SetY | sdl2hl/rect.py:95-97 | the y setter sets y and leaves the other three fields |
| Rectangles.Rect.SetW | sdl2hl/rect.py:104-106 | the w setter sets w and leaves the other three fields |
| Rectangles.Rect.SetH | sdl2hl/rect.py:113-115 | the h setter sets h and leaves the other three fields |
| Rectangles.Rect.Equals | sdl2hl/rect.py:75-76 | __eq__: the other object is a Rect, and only then the native comparison |
| Rectangles.Rect.NotEquals | sdl2hl/rect.py:78-79 | __ne__: the negation of __eq__ |
| Rectangles.NativeRectEquals | sdl2hl/rect.py:76 | `lib.RectEquals` on two rectangles, taken as SDL_RectEquals: all four fields agree |
| Rectangles.RectEquality | sdl2hl/rect.py:75-79 | rect equality is reflexive, symmetric and transitive; a non-Rect is never equal, and the native comparison only sees rectangles; `!=` is the negation of `==` |
| Rectangles.RectEqualsIffSameFields | sdl2hl/rect.py:76 | two rectangles are equal iff all four fields agree |
| Rectangles.PointsAreNotRects | sdl2hl/rect.py:17 | a point and a rectangle never compare equal, in either order |
| Constants.ExportName | sdl2hl/constants.py:4-7 | a symbol is exported iff its value is an int and its name starts with "SDL"; the "SDL_" rule takes precedence, and putting the dropped prefix back gives the name |
| Constants.Exported | sdl2hl/constants.py:3-7 | the globals after walking the symbols in order from given globals, each exported symbol binding its export name to its value; described by ExportedKeys, LastWins and Untouched |
| Constants.Namespace.ExportAll | sdl2hl/constants.py:3-7 | the loop leaves the globals that the walk over dir(lib) in order defines |
| Constants.ExportedKeys | sdl2hl/constants.py:3-7 | the names bound afterwards are the ones bound before plus the export name of every exported symbol |
| Constants.LastWins | sdl2hl/constants.py:3-7 | a name is bound to the native int of the last symbol exported under it |
| Constants.Untouched | sdl2hl/constants.py:3-7 | a name no symbol is exported under keeps its earlier binding, or stays unbound |
| Constants.ExportNameExamples | sdl2hl/constants.py:4-7 | SDL_INIT_VIDEO becomes INIT_VIDEO; SDLK_a becomes K_a; a non-int or a non-SDL name is skipped |
| MakeEnum.Header | bin/makeenum.py:9 | the first line `class <enum_name>(IntEnum):` and its newline |
| MakeEnum.MemberLine | bin/makeenum.py:13 | four spaces, the lower-cased name without the prefix, ` = lib.`, the full name, a newline |
| MakeEnum.MemberLines | bin/makeenum.py:11-13 | the member lines of the names carrying the prefix, in input order |
| MakeEnum.Matching | bin/makeenum.py:11-12 | the names carrying the prefix, all taken from the input |
| MakeEnum.MakeEnumSource | bin/makeenum.py:8-14 | the output is the header `class <name>(IntEnum):` followed by one member line per name carrying the prefix, in input order |
| MakeEnum.MemberLinesAppend | bin/makeenum.py:11-13 | walking two runs of names writes the lines of the first run, then those of the second |
| MakeEnum.NoMatchHeaderOnly | bin/makeenum.py:9-14 | with no name carrying the prefix, the output is the header alone |
| MakeEnum.MemberLineNewlines | bin/makeenum.py:13 | one member line holds exactly one newline |
| MakeEnum.MemberLinesNewlines | bin/makeenum.py:11-13 | the member lines hold one newline per matching name |
| MakeEnum.EnumSourceNewlines | bin/makeenum.py:9-14 | the output holds 1 + (number of matching names) newlines |
| MakeEnum.MemberLinesExample | bin/makeenum.py:13 | with prefix K_, the names [K_A, X, K_BC] give the member lines `a = lib.K_A` and `bc = lib.K_BC` |
| Text.StartsWith | sdl2hl/constants.py:4-6 | `str.startswith`: the prefix is no longer than the string and equals its first characters |
| Text.Lower | bin/makeenum.py:13 | `str.lower` over ASCII, character by character; described by LowerPointwise and LowerIdempotent |
| Text.LowerChar | bin/makeenum.py:13 | lower-casing changes A-Z by +32 and leaves every other character; no upper-case letter results |
| Text.LowerPointwise | bin/makeenum.py:13 | lower-casing keeps the length and maps each character on its own |
| Text.LowerIdempotent | bin/makeenum.py:13 | lower-casing twice is lower-casing once |

## Findings

| source | as written | input that shows it | evidently intended | confidence | as-written member | corrected member |
|---|---|---|---|---|---|---|
| sdl2hl/events.py:368-371 | `poll` polls every event into the one `event_ptr` allocated before the loop. The record allocated after each `yield` goes into an unused variable `event`. | The queue [keydown, quit] drained with `list(poll())`. The first view is a `KeyboardEvent`, but it reads the quit record, whose payload has no key fields. | After each yield, a fresh record is bound to `event_ptr`, so each view keeps the event it was made for. | not executed | Events.AliasedPollExample (Events.PollAll, Events.PollGenerator.Next) | Events.FreshPollExample (Events.PollAllFresh, Events.PollGenerator.NextFresh) |

## Left out

- Rect geometry (`enclose_points`, `has_intersection`, `intersect`, `union`): these are native calls with no logic of their own. Two apparent slips there are not modelled: `intersect` passes `self._ptr` twice, and `enclose_points` stores a pointer where a struct is expected.
- The native library is represented only by the state it exposes:
  - `SDL_PeepEvents` follows the doc comments of `peek` and `get`. Its one failure is a subsystem that is down, which returns -1 with a message.
  - `SDL_PollEvent` takes the front of the queue. The implicit pump that `SDL_PollEvent` performs is not modelled; `Pump` is a separate method whose new events are a parameter.
  - `pump` and polling must run on the thread that set the video mode. That rule, like all threading, is not modelled.
- `_event_reference_map` is a weak-key dictionary that keeps each buffer alive while views point into it. The model keeps it as an ordinary map from pointers to buffers. Garbage collection and weak references are not modelled.
- Events.PollGenerator: `poll()` allocates its scratch record when the generator is first resumed. The model allocates it when the generator is created, because nothing observable happens in between.
- Events.EventSystem.Peek: the quantity is a `nat`. A negative quantity makes `ffi.new` raise; that path is not modelled. The same holds for Get and Peep.
- EventRecords.View.Type: this returns the discriminant as a number. The source wraps it in `EventType(...)`, which raises `ValueError` for a value the enumeration does not list. The enum wrappers `WindowEventType`, `KeyState`, `ScanCode`, `KeyCode`, `ControllerAxis` and `ControllerButton` are also not modelled. Those enumerations (keycode.py, scancode.py) are not part of this model.
- EventRecords.ModRoundTrip: the round trip holds for a flag enumeration. KeyMod is defined in keycode.py, which is not part of this model. If it lists composite members such as KMOD_CTRL, KMOD_SHIFT, KMOD_ALT or KMOD_GUI, `mod` also reports every composite that shares a bit with a pressed key (EventRecords.ModWithCompositeExample, EnumTools.CompositeReported), and the round trip does not hold.
- EventRecords.View.Text: the text is a string of at most 31 characters, matching the 32-byte C array with its terminating NUL. This returns the stored text as a string. The source's `ffi.string` stops at the first NUL of a fixed-size char array; that decoding is not modelled.
- The event classes' `__init__` (a fresh zeroed record) is not modelled. Views are only ever made by `_from_ptr`.
- The event record carries only the union arms the views read. Other native fields are not modelled.
- Rectangles.NativeRectEquals: `lib.RectEquals` is a helper of the binding package whose definition is not part of this model. It is taken to be `SDL_RectEquals` from SDL_rect.h: both arguments non-null and all four fields equal. The four-field equality of rectangles (Rectangles.RectEqualsIffSameFields) rests on that reading.
- EventRecords.Discriminant: event types are limited to [FIRSTEVENT, LASTEVENT], the range of SDL's own event types and of those SDL_RegisterEvents hands out. The native field is a 32-bit word, and SDL_PushEvent does not check it; a hand-pushed type above LASTEVENT is not modelled. Events.EventSystem.NativePollEvent relies on this range when it takes the front of the queue.
- Rectangles.Point.constructor: coordinates have type `Int32`, matching the C `int` fields. cffi raises `OverflowError` for an out-of-range argument; the type excludes such arguments instead of modelling that error. The same holds for Rectangles.Rect.constructor and every setter.
- Constants.Namespace.ExportAll: the source's loop also leaves its loop variable `name` bound in the module's globals. That binding is not modelled.
- MakeEnum.MakeEnumSource: lower-casing is ASCII only. The script is Python 2, where the names from `dir(lib)` are byte strings and `str.lower` in the default C locale changes only A-Z, which is what the model does. The `__main__` block that reads `sys.argv` and prints the result is I/O and is left out.
- Error.ErrorState.CheckIntErr: the message is kept as the native string. The `ffi.string` conversion from a C string is not modelled. The same holds for CheckPtrErr.
