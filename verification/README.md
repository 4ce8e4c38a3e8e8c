# VirtuNova front ends in Dafny

VirtuNova ("Virtual World") drives a Windows desktop without keyboard or
mouse. It has three front ends, and this project models the decision logic of
each:

- **The dual-hand virtual mouse** (`Virtual_World/gesture.py`). For each camera
  frame the hands are sorted into a right slot and a left slot. The index
  fingertip of the preferred hand (right, else left) moves the cursor: the
  position is mapped from the camera frame, less a 40-pixel margin, onto the
  screen and smoothed halfway toward the target. A right-hand thumb-index
  pinch clicks on release: a release within 500 ms is a click, a later one a
  double-click. Three fingers of the right hand up scroll up by 60; all three
  down scroll down. A left-hand pinch right-clicks, at most once every 300 ms.
- **The gesture main menu** (`Virtual_World/gui.py`). It shows one LAUNCH
  button. A thumb-index pinch, once the 0.45 s activation cooldown has run
  out, consumes the cooldown. If the index fingertip is strictly inside the
  button, the menu returns LAUNCH. A trail of the 18 most recent fingertip
  positions is kept.
- **The voice desktop assistant** (`Virtual_World/voice_os.py`). A lowercased
  utterance is classified by an ordered chain of substring and prefix tests
  into one command: help, stop, type, press keys, open an app, folder or
  path, enumerate Explorer items, click an item by number,
  minimize/maximize/restore/close the active window, close windows by name,
  refresh, back, forward. Three helpers sit beside the chain:
  - the number extraction used after enumerating;
  - the numbered overlay and its number-to-position mapping;
  - the window filter used to close windows by name.

Module layout:

- `basics.dfy` (`Basics`): integer points, Python's truncating `int()`, clamping, and the exact link between `math.hypot` and squared integer distances.
- `text.dfy` (`Text`): the Python string operations the classifier uses (`strip`, `split`, `in`, `startswith`, `replace`, `lower`, `isdigit`).
- `gesture.dfy` (`Gesture`): the per-frame interpreter as pure functions. Beside them is the class `VirtualMouse`, which carries the loop's variables and updates them in place.
- `gui.dfy` (`Gui`): the menu step as a function. Beside it is the class `LaunchMenu`, which updates the trail and the activation time in place.
- `voice.dfy` (`VoiceOs`): the classifier, its branches, number extraction, the class `OverlayManager` and the window filter.

Time is an explicit integer `now` in milliseconds, read once per frame.
Landmarks are integer pixels, as the source computes them with `int(lm.x * w)`.
The pinch test `distance < 40` is decided on squared integer distances
(`Basics.BelowIffSquaredBelow` shows that this is exact).

Where the code differs from what its comments and descriptions suggest, the
model follows the code:

- In the virtual mouse, a pinch session survives frames in which the right hand is not seen (`Gesture.NoRightHandKeepsPinch`).
- In the menu, activation needs no release edge. Holding a pinch re-arms every 0.45 s. A pinch outside the button still consumes the cooldown (`Gui.OutsidePinchBlocksLaunch`).
- The cursor smoothing truncates, so from below it stalls one pixel short of a fixed target (`Gesture.SmoothStallsBelow`).

## Model

| member | source | states |
|---|---|---|
| Basics.Trunc | Virtual_World/gesture.py:108-113 | Python's `int()` on a float truncates toward zero: the result is within one of the argument and not farther from zero |
| Basics.TruncMonotone | Virtual_World/gesture.py:108-109 | Truncation of non-negative reals preserves order |
| Basics.Clamp | Virtual_World/gesture.py:110-111 | `max(lo, min(hi, v))` lies in [lo, hi], leaves in-range values alone and sends values outside to the nearer end |
| Basics.SqDist | Virtual_World/gesture.py:26-27 | Squared distance is non-negative and zero exactly for equal points |
| Basics.BelowIffSquaredBelow | Virtual_World/gesture.py:126-127 | For a Euclidean distance d between integer points, `d < limit` holds iff the squared distance is below limit² |
| Text.Strip | Virtual_World/voice_os.py:366 | `strip()` never lengthens the text, and what it returns neither starts nor ends with whitespace |
| Text.StripSpec | Virtual_World/voice_os.py:366 | `strip()` removes exactly the leading and trailing whitespace: the result is a slice of the input with all-space ends cut and no space at either end |
| Text.StripLeadingSpace | Virtual_World/voice_os.py:366 | A leading space does not change what `strip()` keeps |
| Text.StripUnpadded | Virtual_World/voice_os.py:366 | A string with no whitespace at either end is its own `strip()` |
| Text.StripBlank | Virtual_World/voice_os.py:366 | A string of whitespace only strips to the empty string, with or without padding |
| Text.TrimStartPadded | Virtual_World/voice_os.py:451 | Cutting leading whitespace from padded text that is not blank cuts the padding and the text's own leading whitespace, keeping the trailing pad |
| Text.TrimEndPadded | Virtual_World/voice_os.py:451 | Trailing whitespace padding is cut along with the text's own trailing whitespace |
| Text.StripPadded | Virtual_World/voice_os.py:451 | Stripping ignores any whitespace padding added around a string |
| Text.SplitLeadingSpace | Virtual_World/voice_os.py:417 | A leading space does not change what `split()` returns |
| Text.SplitAfterSpace | Virtual_World/voice_os.py:417 | Dropping one leading whitespace character does not change what `split()` returns |
| Text.JoinEnds | Virtual_World/voice_os.py:417-424 | Words joined by single spaces give an empty string only for no words, and otherwise start and end with a non-space |
| Text.SplitJoin | Virtual_World/voice_os.py:417 | `split()` of words joined by single spaces gives back exactly those words |
| Text.Split | Virtual_World/voice_os.py:417 | `split()` returns no more words than the text has characters, and no word at all exactly when the text is blank |
| Text.SplitTokens | Virtual_World/voice_os.py:417 | Every word `split()` returns is non-empty and free of whitespace |
| Text.SplitToken | Virtual_World/voice_os.py:509 | `split()` of a word followed by whitespace-led text yields that word first, then the split of the rest |
| Text.ContainsStep | Virtual_World/voice_os.py:339 | `p in s` (p occurs at some index of s) holds iff s starts with p or p is in s without its first character: the left-to-right scan |
| Text.NotContainsAfterSpace | Virtual_World/voice_os.py:441 | A space put in front of a string adds no occurrence of a pattern that does not start with a space |
| Text.NotContainsChar | Virtual_World/voice_os.py:599-605 | A pattern with a character that is nowhere in the string does not occur in it |
| Text.ContainsWithin | Virtual_World/voice_os.py:339 | A pattern inside s is also inside any text around s |
| Text.ContainsPrefixOf | Virtual_World/voice_os.py:541 | A string that contains p + q contains p |
| Text.ContainsSuffixOf | Virtual_World/voice_os.py:541 | A string that contains p + q contains q |
| Text.RemoveFirst | Virtual_World/voice_os.py:366 | `replace(p, "", 1)` never lengthens and leaves a string without p unchanged |
| Text.RemoveFirstPrefix | Virtual_World/voice_os.py:378 | `replace(p, "", 1)` on a string starting with p yields the rest |
| Text.RemoveAllPrefix | Virtual_World/voice_os.py:441 | `replace(p, "")` on p + s equals `replace(p, "")` on s |
| Text.RemoveAll | Virtual_World/voice_os.py:555 | `replace(p, "")` never lengthens the text, and leaves a text without p unchanged |
| Text.NotContainsAfterPrefix | Virtual_World/voice_os.py:555 | A text without p, behind a prefix that does not start p and whose later characters cannot start p, still holds no p |
| Text.LowerIdempotent | Virtual_World/voice_os.py:56-59 | `lower()` leaves no upper-case letter, and lowering twice equals lowering once |
| Text.DecimalRoundTrip | Virtual_World/voice_os.py:596-597 | `int()` of an all-digit token inverts the decimal rendering of every natural number |
| Gesture.FingersUp | Virtual_World/gesture.py:29-43 | Five flags: thumb tip left of its IP joint, each other tip above its PIP joint; a missing landmark counts as down |
| Gesture.LastInSlotSpec | Virtual_World/gesture.py:77-85 | A role slot is empty iff no hand is labelled for it; otherwise it holds the last hand labelled for it |
| Gesture.AssignRoles | Virtual_World/gesture.py:73-85 | The detection loop fills the right slot with the last "Right" hand and the left slot with the last other hand |
| Gesture.UsableSpan | Virtual_World/gesture.py:101-102 | The usable span is at least 1 and at least the frame size less both margins |
| Gesture.FrameRatio | Virtual_World/gesture.py:103-106 | The relative position is in [0, 1]: 0 at or inside the margin, 1 at or beyond the far edge of the span |
| Gesture.FrameRatioMonotone | Virtual_World/gesture.py:103-106 | A larger frame coordinate never gives a smaller ratio |
| Gesture.ScreenTarget | Virtual_World/gesture.py:101-111 | The unsmoothed target lies on the screen, 0 at the near margin and the last pixel at the far edge |
| Gesture.Scale | Virtual_World/gesture.py:108-111 | `int(screen * rel)` clamped lies on the screen and sends 0 and 1 to the first and last pixel |
| Gesture.ScaleMonotone | Virtual_World/gesture.py:108-111 | Scaling preserves the order of relative positions |
| Gesture.ScreenTargetMonotone | Virtual_World/gesture.py:101-111 | The mapping from camera to screen preserves order |
| Gesture.SmoothIsMidpoint | Virtual_World/gesture.py:112-113 | On the screen, one smoothing step with factor 0.5 yields the floored midpoint of the old position and the target |
| Gesture.Smooth | Virtual_World/gesture.py:112-113 | For any integer positions, the filtered position lies between the previous position and the target |
| Gesture.SmoothBetween | Virtual_World/gesture.py:112-113 | The smoothed position lies between the old position and the target, never farther from the target, and from below never reaches it |
| Gesture.SmoothHalvesGap | Virtual_World/gesture.py:112-113 | One step at least halves the distance to the target, rounded up |
| Gesture.SmoothConverges | Virtual_World/gesture.py:112-114 | After n frames toward a fixed target the distance is below d/2ⁿ + 1 |
| Gesture.SmoothStallsBelow | Virtual_World/gesture.py:112-113 | One pixel below the target is a fixed point, so the cursor can stall there |
| Gesture.ReleaseEvent | Virtual_World/gesture.py:133-140 | A release emits a click iff the pinch was held less than 500 ms, otherwise a double-click |
| Gesture.PinchChannel | Virtual_World/gesture.py:125-143 | The pinch channel records the start time once on entry and emits exactly one event, on release, timed from the entry. Holding or losing the right hand emits nothing and keeps the session |
| Gesture.HoldingKeepsSession | Virtual_World/gesture.py:125-130 | While the pinch is held or the right hand is out of view, the session is unchanged and nothing is emitted |
| Gesture.HoldingThenRelease | Virtual_World/gesture.py:131-143 | Holding and then releasing emits exactly one event, chosen by the time since the session started |
| Gesture.PinchCycle | Virtual_World/gesture.py:125-143 | A whole cycle (pinch at t0, any holding frames, release at t1) emits exactly one click-or-double-click chosen by t1 - t0 |
| Gesture.ScrollChannel | Virtual_World/gesture.py:145-158 | A scroll happens iff index, middle and ring agree: +60 when all up, -60 when all down |
| Gesture.RightClickChannel | Virtual_World/gesture.py:163-172 | A right-click fires exactly when a left hand pinches and more than 300 ms have passed since the last fire; the fire time becomes now when it fires and is kept otherwise |
| Gesture.RightClicksSpaced | Virtual_World/gesture.py:163-168 | Over any run, every right-click comes more than 300 ms after the previous recorded one, and any two come more than 300 ms apart |
| Gesture.SlotHand | Virtual_World/gesture.py:77-85 | A filled slot holds the last hand labelled for it, with all 21 landmarks |
| Gesture.NoHandsNoChange | Virtual_World/gesture.py:92-97 | A frame without hands emits nothing and leaves the cursor, the pinch session and the right-click time unchanged |
| Gesture.CursorFollowsPreferredHand | Virtual_World/gesture.py:92-116 | With a hand in view, the first event moves the cursor to the midpoint toward the right hand's index tip, or the left hand's when no right hand is seen |
| Gesture.CursorStep | Virtual_World/gesture.py:92-114 | Without a hand the cursor stays where it was; a cursor on the screen stays on the screen |
| Gesture.MouseStep | Virtual_World/gesture.py:92-172 | A cursor that starts on the screen stays on the screen; the right-click time is kept or becomes now; a frame emits at most four events |
| Gesture.StepChannels | Virtual_World/gesture.py:125-172 | In one frame the pinch session and the clicks are the pinch channel's on the right hand, and the right-click time and right-clicks are the right-click channel's on the left hand |
| Gesture.RunDrivesPinch | Virtual_World/gesture.py:63-143 | Over any run of frames, the pinch session and the clicks are those of the pinch channel run over the right hand's observations |
| Gesture.RunDrivesRightClick | Virtual_World/gesture.py:63-172 | Over any run of frames, the number of right-clicks and the last fire time are those of the right-click channel run over the left hand's observations |
| Gesture.NoRightHandKeepsPinch | Virtual_World/gesture.py:125 | Without a right hand the pinch session is kept, and no click, double-click or scroll is emitted |
| Gesture.AtMostOneScroll | Virtual_World/gesture.py:147-158 | A frame emits at most one scroll event |
| Gesture.VirtualMouse.constructor | Virtual_World/gesture.py:53-59 | The loop starts with no pinch, the cursor at (0, 0) and right-click time 0 |
| Gesture.VirtualMouse.Step | Virtual_World/gesture.py:63-177 | A failed read changes nothing and continues. A captured frame moves the state and emits the events of the frame model, and Esc ends the loop. The cursor stays on the screen |
| Gesture.VirtualMouse.MoveCursor | Virtual_World/gesture.py:92-116 | The cursor becomes the smoothed screen target of the cursor hand's index tip; the other variables are untouched |
| Gesture.VirtualMouse.TrackPinch | Virtual_World/gesture.py:125-143 | The pinch variables and the emitted click follow the pinch channel; the other variables are untouched |
| Gesture.VirtualMouse.ScrollEvents | Virtual_World/gesture.py:145-158 | At most one scroll, as the scroll channel decides |
| Gesture.VirtualMouse.FireRightClick | Virtual_World/gesture.py:163-172 | The right-click time and event follow the rate-limited channel; the other variables are untouched |
| Gui.Lerp | Virtual_World/gui.py:35-36 | Interpolation gives the start at 0 and the end at 1 |
| Gui.LerpBetween | Virtual_World/gui.py:35-36 | For fractions in [0, 1] the value lies between the ends |
| Gui.Hover | Virtual_World/gui.py:208-209 | The glow is in [0, 1]: full within 60 px of the centre, none from 260 px |
| Gui.HoverNonIncreasing | Virtual_World/gui.py:208-209 | Moving away from the button never brightens it |
| Gui.RingRadius | Virtual_World/gui.py:253 | The cursor ring radius is in [8, 45], and equals `int(80 - d)` between the clamps |
| Gui.LaunchButton | Virtual_World/gui.py:173-179 | The button contains its centre and is twice half its width (and height) across |
| Gui.BorderIsOutside | Virtual_World/gui.py:216 | A point on the button's border is not a hit |
| Gui.TrailPush | Virtual_World/gui.py:204-206 | The new point goes to the front, older points shift back by one, and the trail never exceeds 18 |
| Gui.Reverse | Virtual_World/gui.py:204 | Reversal keeps the length and mirrors the indices |
| Gui.Newest | Virtual_World/gui.py:140-141 | The reference trail: the last 18 points pushed at most, newest first |
| Gui.TrailKeepsNewest | Virtual_World/gui.py:140-141 | From an empty deque, the trail is always the 18 most recent fingertip points, newest first |
| Gui.GuiStep | Virtual_World/gui.py:195-231 | LAUNCH is returned iff a hand pinches, more than 450 ms have passed since the last activation, and the tip is strictly inside the button. Any armed pinch sets the activation time to now, inside the button or not; otherwise the time is kept |
| Gui.NoHandNoChange | Virtual_World/gui.py:195 | A frame without a hand, or a failed read, changes no state and never launches |
| Gui.StepKeepsTrail | Virtual_World/gui.py:204-206 | Every frame with a hand pushes its fingertip at the trail's front, and the trail stays within 18 |
| Gui.CooldownBlocksRun | Virtual_World/gui.py:213 | While every frame is within 450 ms of the last activation, nothing launches and the activation time is unchanged |
| Gui.OutsidePinchBlocksLaunch | Virtual_World/gui.py:213-216 | After an armed pinch outside the button, nothing launches for 450 ms, wherever the tip goes |
| Gui.LaunchMenu.constructor | Virtual_World/gui.py:140-142 | The loop starts with an empty trail and activation time 0 |
| Gui.LaunchMenu.PushTrail | Virtual_World/gui.py:204-206 | appendleft followed by a pop when over length is the trail push, and the trail stays within 18 |
| Gui.LaunchMenu.Step | Virtual_World/gui.py:144-273 | One pass of the loop updates the trail and activation time and returns LAUNCH, keep running, or close, as the menu step function does |
| VoiceOs.Rule | Virtual_World/voice_os.py:337-583 | Every command belongs to one of the 15 tests of the chain, or to none |
| VoiceOs.Alias | Virtual_World/voice_os.py:421 | A word not in the alias table is sent as itself |
| VoiceOs.MapKeys | Virtual_World/voice_os.py:417-421 | The press loop maps every word through the alias table, in order, one key per word |
| VoiceOs.KeysCommand | Virtual_World/voice_os.py:423-429 | Exactly one key is pressed alone; any other number goes to hotkey with all keys in order |
| VoiceOs.TypeCommand | Virtual_World/voice_os.py:365-374 | The type branch either asks for text or types |
| VoiceOs.PressCommand | Virtual_World/voice_os.py:377-436 | The press branch presses one key or a hotkey |
| VoiceOs.OpenAppCommand | Virtual_World/voice_os.py:439-447 | The open-app branch either asks for a name or opens one |
| VoiceOs.OpenTargetCommand | Virtual_World/voice_os.py:451-477 | Explorer iff the target is "this pc", "file explorer" or "explorer"; Documents and Downloads iff their names; otherwise an existing path is opened, else the name is searched in Start |
| VoiceOs.OpenCommand | Virtual_World/voice_os.py:450-477 | The open branch yields only the five open outcomes |
| VoiceOs.ClickCommand | Virtual_World/voice_os.py:507-528 | The click branch clicks a number or says none was caught |
| VoiceOs.CloseCommand | Virtual_World/voice_os.py:546-566 | The close branch closes the active window exactly for "close window"; otherwise it asks for a name or closes by name |
| VoiceOs.FirstDigitSpec | Virtual_World/voice_os.py:595-597 | The first all-digit token gives the number; there is none iff no token is all digits |
| VoiceOs.FirstWordFrom | Virtual_World/voice_os.py:603-605 | A found word number is within the range of the list |
| VoiceOs.NumberWordSpec | Virtual_World/voice_os.py:603-605 | The scan returns the first word of the dictionary that occurs in the utterance as a substring, and nothing iff none occurs |
| VoiceOs.NumberIn | Virtual_World/voice_os.py:594-605 | Digits win over words. Without an all-digit token the number is the first listed word found, between 1 and 20 |
| VoiceOs.ExtractNumber | Virtual_World/voice_os.py:594-605 | The two early-return loops compute the number extraction of one utterance |
| VoiceOs.SeventeenHeardAsSeven | Virtual_World/voice_os.py:599-605 | As written, "seventeen" is heard as 7 |
| VoiceOs.SevenWins | Virtual_World/voice_os.py:603-605 | Without digits, an utterance that holds "seven" but none of one to six is heard as 7 |
| VoiceOs.SeventeenContains | Virtual_World/voice_os.py:600-601 | Of the first seven number words, only "seven" occurs in "seventeen" |
| VoiceOs.SeventeenHasNoDigits | Virtual_World/voice_os.py:595-597 | "seventeen" has no all-digit token |
| VoiceOs.FirstWordIs | Virtual_World/voice_os.py:603-605 | The scan yields word k when it occurs and no earlier word does |
| VoiceOs.FirstTokenWordFrom | Virtual_World/voice_os.py:603-605 | Corrected scan: a found word is one of the utterance's tokens; nothing is found iff no listed word is a token |
| VoiceOs.TokenWordFound | Virtual_World/voice_os.py:603-605 | A word said alone is found at its own position when no earlier entry equals it |
| VoiceOs.NumberWordsAreWords | Virtual_World/voice_os.py:599-602 | Each of the twenty number words is a single token that does not start with a digit |
| VoiceOs.NumberWordsDistinct | Virtual_World/voice_os.py:599-602 | The twenty number words are pairwise distinct |
| VoiceOs.NumberWordsReadBack | Virtual_World/voice_os.py:599-605 | With whole-word matching, every number word said alone reads back as its own value (one → 1 … twenty → 20) |
| VoiceOs.SingleWord | Virtual_World/voice_os.py:595 | A single non-digit word splits into itself and has no all-digit token |
| VoiceOs.WordReadBack | Virtual_World/voice_os.py:599-605 | A word said alone, distinct from the words before it, is read as its own position |
| VoiceOs.Classify | Virtual_World/voice_os.py:337-583 | Help is chosen exactly when the text holds "help"; stopping the assistant exactly when it does not and a stop phrase is present |
| VoiceOs.ClassifyFollowsOrder | Virtual_World/voice_os.py:337-583 | The command comes from a test that holds and no earlier test holds; "not understood" only when none holds |
| VoiceOs.OrderFromHelp | Virtual_World/voice_os.py:339-374 | When the help, stop or type test holds, the command belongs to the first of them that holds |
| VoiceOs.OrderFromPress | Virtual_World/voice_os.py:377-477 | When none of the first three tests holds and the press, open-app or open test does, the command belongs to the first of these that holds |
| VoiceOs.OrderFromEnumerate | Virtual_World/voice_os.py:480-535 | When none of the first six tests holds and the enumerate, click-number or minimize test does, the command belongs to the first of these that holds |
| VoiceOs.OrderFromMaximize | Virtual_World/voice_os.py:536-583 | When none of the first nine tests holds, the command belongs to the first window or browser test that holds, or is "not understood" |
| VoiceOs.WindowTestsInOrder | Virtual_World/voice_os.py:536-566 | The maximize, restore and close tests are tried in that order, before the browser tests |
| VoiceOs.CloseTestInOrder | Virtual_World/voice_os.py:546-583 | Once the maximize and restore tests fail, the close test comes before the browser tests |
| VoiceOs.WindowTestsClose | Virtual_World/voice_os.py:546-566 | Without "maximize" or a restore phrase, an utterance the close test takes gets the close branch's command |
| VoiceOs.BrowserTestsInOrder | Virtual_World/voice_os.py:569-583 | The refresh, back and forward tests are tried in that order; when none holds the utterance is not understood |
| VoiceOs.RuleOf | Virtual_World/voice_os.py:365-566 | Each branch's outcomes belong to that branch's test |
| VoiceOs.FirstFiring | Virtual_World/voice_os.py:337-583 | The first firing test from k lies between k and the chain's end |
| VoiceOs.FirstFiringSpec | Virtual_World/voice_os.py:337-583 | The first firing position holds and nothing before it does |
| VoiceOs.ClassifyIsFirstFiring | Virtual_World/voice_os.py:337-583 | The classifier's command belongs to the first test in the chain that holds |
| VoiceOs.HelpFirst | Virtual_World/voice_os.py:339 | Any utterance containing "help" is the help command |
| VoiceOs.TypeSelected | Virtual_World/voice_os.py:365 | An utterance starting with "type " that the help and stop tests do not take goes to the type branch |
| VoiceOs.OpenSelected | Virtual_World/voice_os.py:450 | An utterance starting with "open " that no earlier test takes goes to the open branch |
| VoiceOs.ClickSelected | Virtual_World/voice_os.py:507 | An utterance starting with "click" and holding "number" that no earlier test takes goes to the click branch |
| VoiceOs.OpenAppSelected | Virtual_World/voice_os.py:439 | An utterance starting with "open app" that no earlier test takes goes to the open-app branch |
| VoiceOs.OpenRemoval | Virtual_World/voice_os.py:451 | Dropping the first "open" from "open " + name and stripping gives strip(name) |
| VoiceOs.TypeRoundTrip | Virtual_World/voice_os.py:365-374 | "type " + s types strip(s), or asks for text when nothing is left |
| VoiceOs.PressRoundTrip | Virtual_World/voice_os.py:377-429 | "press " + spoken words presses the aliased keys in order: one key alone, otherwise a hotkey |
| VoiceOs.PressSelected | Virtual_World/voice_os.py:377 | An utterance starting with "press " that no earlier test takes goes to the press branch |
| VoiceOs.PressWords | Virtual_World/voice_os.py:378-421 | The press branch reads back exactly the spoken words through the alias table |
| VoiceOs.OpenTarget | Virtual_World/voice_os.py:450-477 | "open " + name opens what the stripped name designates |
| VoiceOs.OpenAppTarget | Virtual_World/voice_os.py:439-447 | "open app " + a name without "open" opens that name stripped, or asks for one |
| VoiceOs.RemoveBoth | Virtual_World/voice_os.py:441 | Removing every p + q and then every p from p + q + " " + name, where p is absent from name, and stripping gives strip(name) |
| VoiceOs.AppNameRemoval | Virtual_World/voice_os.py:441 | For "open app " or "close app " + a name without the verb, removing the verb with " app" and then the verb, and stripping, gives strip(name) |
| VoiceOs.CloseAppTarget | Virtual_World/voice_os.py:546-566 | "close app " + a name without "close" closes the windows of that name stripped, or asks for one |
| VoiceOs.CloseRemoval | Virtual_World/voice_os.py:555 | For "close " + a name without "close", not starting with "app", the removals give back the stripped name |
| VoiceOs.CloseTarget | Virtual_World/voice_os.py:546-566 | "close " + such a name (not "window") closes the windows of that name stripped, or asks for one when it is blank |
| VoiceOs.CloseActiveIff | Virtual_World/voice_os.py:546-552 | The whole chain closes the active window exactly for the utterance "close window" |
| VoiceOs.CloseSelected | Virtual_World/voice_os.py:546 | When the close test is the first that holds, the command is the close branch's |
| VoiceOs.CloseAppSelected | Virtual_World/voice_os.py:546-555 | An utterance starting with "close app" that no earlier test takes goes to close-by-name |
| VoiceOs.RestoreTestNeedsRestore | Virtual_World/voice_os.py:536-541 | When the restore test holds and the maximize test does not, "restore" is in the utterance |
| VoiceOs.RestoreNeedsRestore | Virtual_World/voice_os.py:536-545 | The restore command is reached only through "restore": "unmaximize" is taken by the maximize test first |
| VoiceOs.FunctionKeysOnlyByName | Virtual_World/voice_os.py:402-421 | The two-word aliases "f one" … "f twelve" never apply; a function key is pressed only when said by its own name |
| VoiceOs.NoFunctionKeyFromAWord | Virtual_World/voice_os.py:381-414 | No single-word alias stands for a function key |
| VoiceOs.SpokenFunctionKeysHaveSpace | Virtual_World/voice_os.py:402-413 | Every spoken function-key alias has a space as its second character |
| VoiceOs.NamedKeysAreNotFunctionKeys | Virtual_World/voice_os.py:382-401 | No named-key alias maps to a function key |
| VoiceOs.OverlayMapping | Virtual_World/voice_os.py:161 | The mapping's keys are exactly 1 … n, and number i + 1 maps to item i |
| VoiceOs.LabelAt | Virtual_World/voice_os.py:136-141 | A badge 36 px across sits half its width left of the item centre and its height plus 10 px above it |
| VoiceOs.Badges | Virtual_World/voice_os.py:130-142 | One badge per item, numbered from 1 in order |
| VoiceOs.OverlayManager.constructor | Virtual_World/voice_os.py:94-97 | No root, no labels, not visible |
| VoiceOs.OverlayManager.ShowNumberedOverlays | Virtual_World/voice_os.py:115-162 | The old badges are replaced by one per item, numbered from 1; the overlay is visible; the returned mapping sends each number to its item |
| VoiceOs.OverlayManager.Clear | Virtual_World/voice_os.py:164-176 | The overlay is hidden and its root gone; the labels are dropped only when a root existed |
| VoiceOs.BadgeMatchesMapping | Virtual_World/voice_os.py:130-161 | For every number in the mapping, the badge with that number sits next to the position the number maps to |
| VoiceOs.EnumerateOutcome | Virtual_World/voice_os.py:480-504 | No items, no number heard, a click on the item the overlay mapped, or an invalid number; a click happens iff 1 ≤ n ≤ the item count |
| VoiceOs.ClickNumberOutcome | Virtual_World/voice_os.py:507-526 | "click number n" clicks item n - 1 iff 1 ≤ n ≤ the item count |
| VoiceOs.ClickPathsAgree | Virtual_World/voice_os.py:497-522 | Saying n after enumerating and saying "click number n" reach the same item with the same outcome |
| VoiceOs.MatchingHandles | Virtual_World/voice_os.py:55-64 | No more handles than windows |
| VoiceOs.MatchingHandlesAppend | Virtual_World/voice_os.py:57-63 | Filtering follows the enumeration order: the result for a + b is the result for a, then for b |
| VoiceOs.MatchingHandlesSpec | Virtual_World/voice_os.py:55-64 | A handle is reported iff some window with that handle has the lowercased name in its lowercased title or class name |
| VoiceOs.MatchingIgnoresCase | Virtual_World/voice_os.py:56 | The search result does not depend on the case of the name |
| VoiceOs.FindWindowsByTitleContains | Virtual_World/voice_os.py:55-64 | The enumeration callback collects exactly the matching handles, in order |

## Left out

- Camera capture, MediaPipe hand detection, and the drawing and overlays on frames: a frame is given as the detected hands with integer landmarks.
- The 21-landmark shape of every detected hand is a precondition (`Gesture.WellFormed`, `Gui.WellFormedInput`), as the detector guarantees.
- Calls into pyautogui, keyboard, win32gui, os.startfile and Tk are outputs. They are modelled as events and commands, and assumed to succeed.
- Gesture.VirtualMouse.FireRightClick: if `pyautogui.rightClick()` raised, the source would leave the right-click time unchanged (gesture.py:166-172); the model assumes the call succeeds.
- Clocks are one integer `now` in milliseconds per frame. The source reads `time.time()` several times per frame and compares floats in seconds.
- Float arithmetic is modelled with exact reals and explicit truncation. Float rounding is not modelled.
- Gui.Lerp, Gui.Hover and Gui.RingRadius take exact real distances; the source's `math.hypot` rounding is not modelled.
- Rendering-only code in gui.py is not modelled: the frosted panel, gradient button, grid, title glow, trail fading, confidence meter and loading animation.
- Speech recognition, text-to-speech, the microphone and the 8-second retry loop of `_listen_for_number` are left out. The model extracts the number from one utterance (`VoiceOs.ExtractNumber`); the heard result is an input of `VoiceOs.EnumerateOutcome`.
- `enumerate_explorer_visible_items` (pywinauto UI Automation) is left out; the items' centres are an input.
- `os.path.exists` is the `existing` set parameter of `VoiceOs.Classify`.
- The overlay's Tk thread, its time-to-live and its "Listening..." indicator are left out. Only badges, visibility and the root's existence are modelled.
- `VoiceDesktopController.start`, its `running` flag and `stop` are not modelled: `StopAssistant` is the command that ends the loop. `main.py` is not part of this model.
- `lower()` and `isdigit()` are modelled on ASCII; Unicode case mapping and digits are not. Whitespace is the full set `str.isspace()` accepts.
- `OpenApp` and `SearchStart` both type the name into the Start menu search; the model keeps them apart only by the branch that produced them.

## Findings

| source | as written | input that shows it | evidently intended | confidence | as-written member | corrected member |
|---|---|---|---|---|---|---|
| Virtual_World/voice_os.py:599-605 | Number words are matched as substrings, in dictionary order, so a shorter word inside a longer one wins | "seventeen" is read as 7 ("seven" comes first); fourteen, sixteen, eighteen and nineteen likewise read as 4, 6, 8 and 9 | A number word counts only as a whole word, so each of one … twenty reads as its own value | not executed | VoiceOs.SeventeenHeardAsSeven | VoiceOs.NumberWordsReadBack |
