# SmallTvTimerScreen timer core, in Dafny

SmallTvTimerScreen is a small ASP.NET service. It receives the state of Alexa timers and turns it into a list of named timers. A background worker renders the list as an image and pushes it to a "SmallTV" picture-frame device. This project models the four parts of it that make decisions:

- **`NamedTimers`** (`named_timer.dfy`): the timer record. A timer is active until ten seconds past its end. Its remaining time is clamped at zero. The current instant is a parameter. Time is counted in ticks of 100 ns, the unit of `DateTimeOffset` and `TimeSpan`.
- **`TimerOrder`** (`timer_order.dfy`): the order in which the service stores its timers, by end instant and then by name. Names are compared in ordinal code-point order instead of the culture-sensitive comparer (see Left out). Under that order it is proved to be a total order, and sorting is proved to be a canonical form.
- **`TimerServices`** (`timer_service.dfy`): the timer service is a class. It holds the stored list and the one-slot wake signal. `SetTimers` and `ClearTimers` update both.
  - The worker loop `ExecuteAsync` is a method with nested loops. It emits the device calls.
  - The answers the loop receives from the outside world come from two scripts:
    - whether shutdown has been requested;
    - whether a timer is active when the loop asks.
  - The loop's result is read back as a list of display cycles plus an ending. The method proves that this reading consumes exactly the first answers of both scripts.
- **`TimerControllers`** (`timer_controller.dfy`): the HTTP actions. `NextTimer` maps the Alexa payload to "clear" or "set these timers". The debug action `Update` does the same for a single timer. Both then call the service and answer 200, or 500 when the service throws.
- **`TimerFormat`**, **`TimerImage`** and **`TextFitting`** (`format_timer.dfy`, `timer_image.dfy`, `text_fitting.dfy`): the image generator.
  - `FormatTimer` turns a remaining time into text. A reader proves the text round-trips.
  - `CreateImage` lays out up to three timers on a 240×240 canvas. It produces the list of draw requests, not pixels.
  - `DrawCentered` fits a text into its width. It shrinks the font in 10 % steps, or cuts the text down and ends it with an ellipsis. Text measurement is a function parameter `width(text, size)`.
- `Sequences` (`sequences.dfy`) holds two facts about sequence concatenation that the other modules use.

The wake signal is a `SemaphoreSlim` with a maximum count of one (TimerService.cs:26), released at TimerService.cs:62. After every wake the worker checks `IsTimerActive` again (TimerService.cs:80-81), so one pending wake is all it needs and a second `Release` carries nothing. The code does not ignore that second `Release`: it throws `SemaphoreFullException`.
- `TimerService.SetTimers` models the code as written. `TimerService.SetTimersCoalescing` models the variant that folds the second wake into the pending one (see Findings).
- `TimerService.TakeWake` is the worker's `WaitAsync` taking the pending wake. The throw needs a second rising edge before the worker has taken the first wake, that is, while the worker is busy.
- Because of that, `NextTimer` does not always answer 200. When `SetTimers` throws, ASP.NET answers 500. `TimerControllers.Apply` gives both outcomes.
- The text-fitting code faults on some names (see Findings). `TextFitting.DrawFitted` models it as written, with a `Faulted` outcome. `TextFitting.FitByTruncationGuarded` is the corrected procedure.

Some behaviours of the worker loop follow from the code and are visible in the model:
- The loop can be cancelled while it waits for the wake signal. If a timer is active at that moment, it switches to the default theme, although no display cycle ran (`CancelledWhileWaiting(true)`).
- The loop can be cancelled during a display cycle when the timers have just become inactive. It then leaves the photo album showing (`FinalScreen` is `PhotoAlbum`).
- When shutdown is seen at the outer `while` condition, no switch back is made.

## Model

| member | source | states |
|---|---|---|
| NamedTimers.RemainingTime | SmallTvTimerScreen/Data/NamedTimer.cs:30-37 | the remaining time is positive exactly when now is before the end, and then now plus it is the end; it is never negative |
| NamedTimers.IsActive | SmallTvTimerScreen/Data/NamedTimer.cs:25 | a running timer is active; a timer past its end is active exactly while less than ten seconds have passed since the end |
| NamedTimers.GraceWindowBoundaries | SmallTvTimerScreen/Data/NamedTimer.cs:25 | a timer is active exactly while now < end + 10 s: active 5 s after its end, inactive at 10 s and at 15 s |
| NamedTimers.RemainingImpliesActive | SmallTvTimerScreen/Data/NamedTimer.cs:25-35 | a timer with time left is active |
| NamedTimers.StaysInactive | SmallTvTimerScreen/Data/NamedTimer.cs:25-35 | once inactive, a timer is inactive and has no time left at every later instant |
| TimerOrder.TextTotal | SmallTvTimerScreen/Services/TimerService.cs:58 | the name order is total |
| TimerOrder.TextAntisymmetric | SmallTvTimerScreen/Services/TimerService.cs:58 | two names each before the other are equal |
| TimerOrder.TextTransitive | SmallTvTimerScreen/Services/TimerService.cs:58 | the name order is transitive |
| TimerOrder.TimerTotal | SmallTvTimerScreen/Services/TimerService.cs:58 | ordering by end then by name (absent name first) is total |
| TimerOrder.TimerLessEq | SmallTvTimerScreen/Services/TimerService.cs:58 | an earlier end comes first whatever the names; at equal ends an absent name comes before a present one |
| TimerOrder.NameLessEq | SmallTvTimerScreen/Services/TimerService.cs:58 | an absent name comes before every name, a present name never before an absent one, and two present names compare by the text order |
| TimerOrder.TimerAntisymmetric | SmallTvTimerScreen/Services/TimerService.cs:58 | two timers each before the other are equal, so ties are only between equal timers |
| TimerOrder.TimerTransitive | SmallTvTimerScreen/Services/TimerService.cs:58 | the timer order is transitive |
| TimerOrder.HeadIsLeast | SmallTvTimerScreen/Services/TimerService.cs:58 | the first timer of a sorted list is before each timer in it |
| TimerOrder.Insert | SmallTvTimerScreen/Services/TimerService.cs:58 | inserting into a sorted list gives a sorted list holding one more copy of the timer |
| TimerOrder.SortTimers | SmallTvTimerScreen/Services/TimerService.cs:58 | OrderBy(End).ThenBy(Name) gives a sorted permutation of its input |
| TimerOrder.SortedPermutationUnique | SmallTvTimerScreen/Services/TimerService.cs:58 | under the ordinal name order of this model, two sorted lists holding the same timers are equal |
| TimerOrder.SortTimersCanonical | SmallTvTimerScreen/Services/TimerService.cs:58 | under the ordinal name order of this model, the stored order does not depend on the order in which the timers were submitted |
| TimerServices.AnyActive | SmallTvTimerScreen/Services/TimerService.cs:45 | true exactly when some timer of the list is active |
| TimerServices.ActiveOfPermutation | SmallTvTimerScreen/Services/TimerService.cs:58-61 | reordering a list does not change whether some timer in it is active, so testing the sorted list is testing the given one |
| TimerServices.TimerService.constructor | SmallTvTimerScreen/Services/TimerService.cs:26-27 | the service starts with an empty list and no pending wake |
| TimerServices.TimerService.IsTimerActive | SmallTvTimerScreen/Services/TimerService.cs:45 | true exactly when some stored timer is active |
| TimerServices.TimerService.ReleaseWake | SmallTvTimerScreen/Services/TimerService.cs:26-62 | Release on a SemaphoreSlim(0, 1) leaves a wake pending, and throws exactly when one was already pending |
| TimerServices.TimerService.SetTimers | SmallTvTimerScreen/Services/TimerService.cs:56-64 | stores the sorted permutation of the timers; a wake is raised exactly on the edge "nothing active before, something active after", and the call throws exactly when that edge finds a wake pending |
| TimerServices.TimerService.ClearTimers | SmallTvTimerScreen/Services/TimerService.cs:50-64 | the list becomes empty, the wake signal is untouched and nothing throws; the new state does not depend on the old list, so clearing twice is clearing once |
| TimerServices.TimerService.SetTimersCoalescing | SmallTvTimerScreen/Services/TimerService.cs:56-64 | the intended SetTimers: same stored list and wake state, and the call always completes |
| TimerServices.TimerService.ExecuteAsync | SmallTvTimerScreen/Services/TimerService.cs:74-108 | the calls made are exactly those of a run of spurious wakes and display cycles followed by one of the three endings, and that run consumes exactly the first answers of both scripts |
| TimerServices.TimerService.DisplayCycle | SmallTvTimerScreen/Services/TimerService.cs:84-106 | a display cycle uploads, shows and switches to the album, then uploads once per tick; it ends with one switch to the default theme when the check fails, or, when cancelled, with a switch exactly when the catch block finds a timer active |
| TimerServices.PendingWakeRace | SmallTvTimerScreen/Services/TimerService.cs:60-63 | set, clear and set again before the wake is taken: the third call throws SemaphoreFullException |
| TimerServices.PendingWakeCoalesced | SmallTvTimerScreen/Services/TimerService.cs:60-63 | the same calls with the coalescing signal complete and leave one wake pending |
| TimerServices.TimerService.TakeWake | SmallTvTimerScreen/Services/TimerService.cs:80 | the worker's wait takes the pending wake and leaves the stored list alone |
| TimerServices.WakeTakenBetween | SmallTvTimerScreen/Services/TimerService.cs:60-63 | set, the worker takes the wake, clear, set again: the second rising edge completes and leaves one wake pending, so the throw needs a worker that has not yet taken the first wake |
| TimerServices.StopRequestedExit | SmallTvTimerScreen/Services/TimerService.cs:78 | a stop seen at the outer while condition ends the run with no further call |
| TimerServices.CancelledWhileWaitingExit | SmallTvTimerScreen/Services/TimerService.cs:80-106 | a cancelled wait for the wake signal ends the run with a switch to the default theme exactly when a timer is active |
| TimerServices.SpuriousStep | SmallTvTimerScreen/Services/TimerService.cs:80-81 | a wake with no active timer makes no device call |
| TimerServices.CycleStart | SmallTvTimerScreen/Services/TimerService.cs:78-81 | a display cycle begins after two "no stop" answers and one "active" answer |
| TimerServices.DisplayedStep | SmallTvTimerScreen/Services/TimerService.cs:81-96 | a completed display cycle extends the run by its calls and by the answers it consumed |
| TimerServices.CancelledWhileDisplayingExit | SmallTvTimerScreen/Services/TimerService.cs:89-106 | a cancelled tick wait ends the run after the cycle's uploads, with a switch exactly when a timer is active |
| TimerServices.ScreenAfterAppend | SmallTvTimerScreen/Services/TimerService.cs:86-105 | the screen after two call lists is the screen after the first, continued by the second |
| TimerServices.RefreshesKeepScreen | SmallTvTimerScreen/Services/TimerService.cs:92 | refreshes do not change what the screen shows |
| TimerServices.CyclesEndOnDefault | SmallTvTimerScreen/Services/TimerService.cs:84-96 | after any number of complete cycles the default theme is shown again |
| TimerServices.EntryShowsAlbum | SmallTvTimerScreen/Services/TimerService.cs:84-86 | entering a display cycle puts the photo album on screen |
| TimerServices.FinalScreen | SmallTvTimerScreen/Services/TimerService.cs:95-106 | a run ends on the photo album exactly when it was cancelled mid-cycle and found no active timer |
| TimerServices.EndingScreen | SmallTvTimerScreen/Services/TimerService.cs:84-106 | the calls of each ending leave the screen on FinalScreen |
| TimerServices.CancelledDisplayScreen | SmallTvTimerScreen/Services/TimerService.cs:84-106 | a display cut short by shutdown ends on the photo album, or on the default theme exactly when the catch block reverts |
| TimerServices.RunScreen | SmallTvTimerScreen/Services/TimerService.cs:74-108 | what a whole run leaves on the screen is FinalScreen of its ending |
| TimerServices.CyclesSwitchCounts | SmallTvTimerScreen/Services/TimerService.cs:86-95 | complete cycles make as many switches to the album as to the default theme, one each per cycle |
| TimerServices.RunSwitchCounts | SmallTvTimerScreen/Services/TimerService.cs:74-108 | a run switches to the album once per display cycle (including a cancelled one) and back once per completed cycle plus once if the catch block reverts |
| TimerServices.CycleSwitchCounts | SmallTvTimerScreen/Services/TimerService.cs:81-97 | one display cycle switches to the album once and back once; a wake with no active timer switches nothing |
| TimerServices.EndingSwitchCounts | SmallTvTimerScreen/Services/TimerService.cs:100-106 | an ending switches to the album once only when it cut a display short, and back once only when the catch block reverts |
| TimerControllers.InsertByRemaining | SmallTvTimerScreen/Controllers/TimerController.cs:48 | inserting by remaining time keeps the list sorted and adds one copy of the entry |
| TimerControllers.LeastRemainingFirst | SmallTvTimerScreen/Controllers/TimerController.cs:48 | the first entry of a sorted list has the least remaining time |
| TimerControllers.SortByRemaining | SmallTvTimerScreen/Controllers/TimerController.cs:48 | OrderBy(RemainingTime) gives a sorted permutation of the entries |
| TimerControllers.InsertStable | SmallTvTimerScreen/Controllers/TimerController.cs:48 | inserting keeps entries with equal remaining time in their relative order |
| TimerControllers.SortStable | SmallTvTimerScreen/Controllers/TimerController.cs:48 | OrderBy is stable: entries with the same remaining time keep their payload order |
| TimerControllers.NextTimerCommand | SmallTvTimerScreen/Controllers/TimerController.cs:46-62 | clears exactly when the payload has no active entry (no brief, no list or an empty list); otherwise sets one timer per entry |
| TimerControllers.ActiveEntries | SmallTvTimerScreen/Controllers/TimerController.cs:47 | the payload's active list; empty when the brief or its list is absent |
| TimerControllers.ReferenceTime | SmallTvTimerScreen/Controllers/TimerController.cs:46 | the process timestamp when present, otherwise the current instant |
| TimerControllers.NextTimerSetsEntries | SmallTvTimerScreen/Controllers/TimerController.cs:46-53 | the timers set are exactly the entries, each named by its label and ending at the reference time plus its remaining milliseconds, the reference being the process timestamp or else now |
| TimerControllers.NextTimerOrderedByEnd | SmallTvTimerScreen/Controllers/TimerController.cs:48-53 | the timers set are in increasing order of end instant |
| TimerControllers.NextTimerKeepsPayloadOrder | SmallTvTimerScreen/Controllers/TimerController.cs:48-53 | timers with the same end keep the order of their entries in the payload |
| TimerControllers.EndsOfRemaining | SmallTvTimerScreen/Controllers/TimerController.cs:52 | the entries with k ms remaining become exactly the timers ending at reference + k ms |
| TimerControllers.ToNamedTimer | SmallTvTimerScreen/Controllers/TimerController.cs:49-53 | the timer keeps the entry's label; with k ≥ 0 ms remaining it is active at the reference instant and has exactly k ms left there |
| TimerControllers.ToNamedTimers | SmallTvTimerScreen/Controllers/TimerController.cs:49-54 | one timer per entry, in the same order and with the same labels; each one with k ≥ 0 ms remaining has exactly k ms left at the reference instant |
| TimerControllers.InsertMapsEntry | SmallTvTimerScreen/Controllers/TimerController.cs:48-53 | converting after an insertion gives the converted list plus the converted entry |
| TimerControllers.SortMapsEntries | SmallTvTimerScreen/Controllers/TimerController.cs:48-53 | sorting then converting gives the same timers as converting alone |
| TimerControllers.UpdateCommand | SmallTvTimerScreen/Controllers/TimerController.cs:75-84 | clears exactly when no timer is given or its end is before now; otherwise sets exactly that one timer |
| TimerControllers.UpdateSetsActiveTimer | SmallTvTimerScreen/Controllers/TimerController.cs:77-84 | a timer that Update sets is active, with its full time to the end left |
| TimerControllers.Apply | SmallTvTimerScreen/Controllers/TimerController.cs:55-64 | the service stores the command's timers sorted; the answer is 500 exactly when SetTimers throws |
| TimerControllers.NextTimer | SmallTvTimerScreen/Controllers/TimerController.cs:44-65 | stores the mapped timers sorted; an empty payload empties the list without touching the wake; a wake is pending afterwards exactly when one was before or the call is a rising edge; the answer is 500 exactly when a rising edge meets a pending wake |
| TimerControllers.Update | SmallTvTimerScreen/Controllers/TimerController.cs:75-87 | stores the timer or clears; a wake is pending afterwards exactly when one was before or the call is a rising edge, so setting on an idle service leaves a wake pending; the answer is 500 exactly when a rising edge meets a pending wake |
| TimerControllers.ClearWhenNothingActive | SmallTvTimerScreen.Tests/Controllers/TimerControllerTests.cs:88-128 | an empty active list, a missing list and a missing brief all clear |
| TimerControllers.EndTimeExample | SmallTvTimerScreen.Tests/Controllers/TimerControllerTests.cs:134-169 | 300000 ms remaining ends five minutes after the process timestamp |
| TimerControllers.OrderOfThree | SmallTvTimerScreen.Tests/Controllers/TimerControllerTests.cs:175-204 | three entries given as third, first, second by remaining time are set as first, second, third |
| TimerControllers.SortExample | SmallTvTimerScreen.Tests/Controllers/TimerControllerTests.cs:175-204 | entries given as third, first, second by increasing remaining time sort to first, second, third |
| TimerControllers.OrderExample | SmallTvTimerScreen.Tests/Controllers/TimerControllerTests.cs:175-204 | Third/First/Second with 300000/60000/120000 ms come out First, Second, Third |
| TimerFormat.Decimal | SmallTvTimerScreen/Services/TimerImageGenerator.cs:102 | the decimal text of a number is digits only, and has two digits or more from 10 on |
| TimerFormat.Pad2 | SmallTvTimerScreen/Services/TimerImageGenerator.cs:103-104 | a number below 100 as exactly two digits |
| TimerFormat.DecimalRoundTrip | SmallTvTimerScreen/Services/TimerImageGenerator.cs:102 | reading the decimal text back gives the number |
| TimerFormat.FormatTimer | SmallTvTimerScreen/Services/TimerImageGenerator.cs:100-105 | beyond 99 hours the text ends in " h"; from 1 to 99 hours it is HH:MM:SS; below one hour it is MM:SS |
| TimerFormat.FormatRoundTrip | SmallTvTimerScreen/Services/TimerImageGenerator.cs:100-105 | reading the text back gives the whole hours beyond 99 hours and the whole seconds otherwise: only sub-second parts (and, beyond 99 hours, sub-hour parts) are lost |
| TimerFormat.ClockFieldsBelowSixty | SmallTvTimerScreen/Services/TimerImageGenerator.cs:103-104 | up to 99 hours, the minute and second fields of the text are two digits each with a value below 60 |
| TimerFormat.HoursRoundTrip | SmallTvTimerScreen/Services/TimerImageGenerator.cs:102 | beyond 99 hours the text reads back as the whole hours |
| TimerFormat.LongClockRoundTrip | SmallTvTimerScreen/Services/TimerImageGenerator.cs:103 | from one hour up to 99 hours the HH:MM:SS text reads back as the whole seconds |
| TimerFormat.ShortClockRoundTrip | SmallTvTimerScreen/Services/TimerImageGenerator.cs:104 | below one hour the MM:SS text reads back as the whole seconds |
| TimerFormat.ClockSplit | SmallTvTimerScreen/Services/TimerImageGenerator.cs:103-104 | hours, minutes and seconds add back up to the whole seconds, and up to 99 hours the hours fit in two digits |
| TimerFormat.HundredHours | SmallTvTimerScreen/Services/TimerImageGenerator.cs:102 | 100 hours read "100 h" |
| TimerFormat.JustOverNinetyNineHours | SmallTvTimerScreen/Services/TimerImageGenerator.cs:102 | 99 h 0 min 1 s already reads "99 h", because the test is on fractional hours |
| TimerFormat.NinetyNineHours | SmallTvTimerScreen/Services/TimerImageGenerator.cs:103 | exactly 99 hours reads "99:00:00" |
| TimerFormat.OneHour | SmallTvTimerScreen/Services/TimerImageGenerator.cs:103 | exactly one hour reads "01:00:00" |
| TimerFormat.UnderOneHour | SmallTvTimerScreen/Services/TimerImageGenerator.cs:104 | 59 min 59 s reads "59:59" |
| TimerFormat.SubSecondsDropped | SmallTvTimerScreen/Services/TimerImageGenerator.cs:104 | one tick short of an hour also reads "59:59" |
| TimerImage.SlotCount | SmallTvTimerScreen/Services/TimerImageGenerator.cs:119-133 | the number of slots is min(count, 3) |
| TimerImage.CreateImage | SmallTvTimerScreen/Services/TimerImageGenerator.cs:107-161 | both branches make exactly the requests of the uniform layout ImageOps: background, n - 1 separators, then each slot's time and (if any) name |
| TimerImage.DrawSingle | SmallTvTimerScreen/Services/TimerImageGenerator.cs:119-130 | the one-timer branch requests the time at half the height and, unless the name is null or empty, the name at 0.8 of the height: the same requests as slot 0 of a one-slot layout |
| TimerImage.DrawSeparators | SmallTvTimerScreen/Services/TimerImageGenerator.cs:141-144 | the separator loop requests one line at each height scale * i for i = 1 .. n - 1, in that order |
| TimerImage.DrawSlots | SmallTvTimerScreen/Services/TimerImageGenerator.cs:146-157 | the slot loop requests slots 0 .. n - 1 in order, each laid out in its own band |
| TimerImage.SingleLayout | SmallTvTimerScreen/Services/TimerImageGenerator.cs:119-130 | with one timer the uniform layout is the background followed by that timer's single slot |
| TimerImage.DrawSlot | SmallTvTimerScreen/Services/TimerImageGenerator.cs:148-156 | one pass of the slot loop requests the time at the slot's time position, then the name at the name position unless it is null or empty |
| TimerImage.FiltersAppend | SmallTvTimerScreen/Services/TimerImageGenerator.cs:107-161 | the times, names and separator positions of two request lists put together are those of each in turn |
| TimerImage.SlotTime | SmallTvTimerScreen/Services/TimerImageGenerator.cs:149-152 | each slot requests its formatted remaining time once |
| TimerImage.SlotName | SmallTvTimerScreen/Services/TimerImageGenerator.cs:153-156 | a slot requests its name exactly when the name is neither null nor empty |
| TimerImage.IsNullOrEmpty | SmallTvTimerScreen/Services/TimerImageGenerator.cs:152 | a name counts as present exactly when it is not null and has at least one character |
| TimerImage.SlotsNoLine | SmallTvTimerScreen/Services/TimerImageGenerator.cs:146-157 | no request of the slot loop is a line |
| TimerImage.SlotsTimeTexts | SmallTvTimerScreen/Services/TimerImageGenerator.cs:146-157 | the slot loop shows the remaining times of the first n timers, in list order |
| TimerImage.SlotsNameTexts | SmallTvTimerScreen/Services/TimerImageGenerator.cs:146-157 | the slot loop shows the non-empty names of the first n timers, in list order |
| TimerImage.SlotsLineYs | SmallTvTimerScreen/Services/TimerImageGenerator.cs:146-157 | the slot loop draws no separator |
| TimerImage.SeparatorFilters | SmallTvTimerScreen/Services/TimerImageGenerator.cs:141-144 | the separator loop draws no text, and its lines lie at 240 * i / n for i = 1 .. count |
| TimerImage.ImageContents | SmallTvTimerScreen/Services/TimerImageGenerator.cs:107-161 | the image shows the times of the first min(count, 3) timers in order, their non-empty names in order, n - 1 separators at 240 * i / n; no timer gives the background alone |
| TimerImage.SlotScales | SmallTvTimerScreen/Services/TimerImageGenerator.cs:114-155 | every time the slot loop requests is centred, 200 wide, at scale 1 with auto-shrink; every name is centred, 200 wide, at scale 1/n without it, and never empty |
| TimerImage.SlotScaled | SmallTvTimerScreen/Services/TimerImageGenerator.cs:148-156 | the same holds for the requests of one slot |
| TimerImage.BandLayout | SmallTvTimerScreen/Services/TimerImageGenerator.cs:142-154 | slot i of n lies between 240 * i / n and 240 * (i + 1) / n, with the time at its middle above the name |
| TimerImage.SingleTimerPositions | SmallTvTimerScreen/Services/TimerImageGenerator.cs:113-122 | one timer is drawn at 120 (time) and 192 (name), the width limit is 200 and the centre 120 |
| TextFitting.TrimEllipsis | SmallTvTimerScreen/Services/TimerImageGenerator.cs:255 | TrimEnd('…') is a prefix not ending in '…', followed only by '…' in the text |
| TextFitting.TrimEmptyIffEllipses | SmallTvTimerScreen/Services/TimerImageGenerator.cs:255 | trimming leaves nothing exactly when the text is all ellipses |
| TextFitting.Truncated | SmallTvTimerScreen/Services/TimerImageGenerator.cs:255 | the next candidate has the trimmed length, ends in '…' and agrees with the text before that |
| TextFitting.TruncatedShrinks | SmallTvTimerScreen/Services/TimerImageGenerator.cs:241-255 | each truncation strictly shortens the trimmed text, so truncation ends |
| TextFitting.TrimAppendEllipsis | SmallTvTimerScreen/Services/TimerImageGenerator.cs:255 | appending '…' does not change what trimming leaves |
| TextFitting.AbbreviatesTruncated | SmallTvTimerScreen/Services/TimerImageGenerator.cs:255 | an abbreviation of the next candidate is an abbreviation of the text |
| TextFitting.FitByTruncation | SmallTvTimerScreen/Services/TimerImageGenerator.cs:223-257 | as written: a narrow text is drawn as is; a wide text of at most one character is not drawn; whatever is drawn fits and is the text or a prefix of it ended by '…'; a fault needs a wide text of two characters or more |
| TextFitting.FitByTruncationGuarded | SmallTvTimerScreen/Services/TimerImageGenerator.cs:223-257 | the corrected procedure never faults; a narrow text is drawn as is and a wide text of at most one character is not; whatever it draws fits and abbreviates the text |
| TextFitting.FitByTruncationFirstFit | SmallTvTimerScreen/Services/TimerImageGenerator.cs:223-257 | as written, the drawn text is the first candidate (the text, then each truncation in turn) that fits; when none fits, nothing is drawn if the candidates end at one character, and the call faults if they end at a text of ellipses only |
| TextFitting.GuardedFirstFit | SmallTvTimerScreen/Services/TimerImageGenerator.cs:223-257 | with the guard, the drawn text is the first candidate that fits; nothing is drawn only when no candidate fits, the candidates then ending at one character or at ellipses only |
| TextFitting.GuardedDrawsWhenSomeFits | SmallTvTimerScreen/Services/TimerImageGenerator.cs:223-257 | with the guard, a text is drawn whenever one of its candidates fits |
| TextFitting.GuardAgrees | SmallTvTimerScreen/Services/TimerImageGenerator.cs:241-255 | the corrected procedure agrees with the code wherever the code does not fault |
| TextFitting.EllipsesFault | SmallTvTimerScreen/Services/TimerImageGenerator.cs:241-255 | a wide text of two or more ellipses faults as written and is not drawn when corrected |
| TextFitting.LeadingEllipsesFault | SmallTvTimerScreen/Services/TimerImageGenerator.cs:241-255 | a wide name "……a" faults: its first truncation is all ellipses |
| TextFitting.DrawFitted | SmallTvTimerScreen/Services/TimerImageGenerator.cs:223-258 | a narrow text is drawn as is; with auto-shrink a wide one is drawn at the first size 0.9^k (k >= 1) at which it is at most maxWidth wide; without, it is FitByTruncation; the nested auto-scale branch is unreachable |
| TextFitting.DrawCentered | SmallTvTimerScreen/Services/TimerImageGenerator.cs:213-221 | the font size is the configured size times the scale; with auto-shrink the text is always drawn whole and fits, and its size changes only if it was too wide |
| TextFitting.ShrunkDecreases | SmallTvTimerScreen/Services/TimerImageGenerator.cs:232 | each shrink step makes a positive size smaller and keeps it positive |
| TextFitting.Shrunk | SmallTvTimerScreen/Services/TimerImageGenerator.cs:232-237 | the size after any number of 10 % shrink steps stays between zero and the starting size |
| TextFitting.BoundaryWidthShrinks | SmallTvTimerScreen/Services/TimerImageGenerator.cs:226-239 | a text exactly maxWidth wide is shrunk, while after shrinking a width of exactly maxWidth is accepted |

## Left out

- Clock: `DateTimeOffset.Now` is an explicit `now` parameter. One instant serves a whole call, where the source reads the clock again at each `IsActive`.
- Offsets and range: `DateTimeOffset` offsets and its range limits are not modelled. Instants are unbounded integers of ticks.
- Name order: `ThenBy(t => t.Name)` uses the culture-sensitive default string comparer. The model uses ordinal code-point order with an absent name first. The culture comparer is not antisymmetric: names that differ only in ignorable characters compare equal, and the stable sort keeps such timers in payload order. `TimerOrder.SortedPermutationUnique` and `TimerOrder.SortTimersCanonical` hold for the ordinal order only. With the real comparer the stored order can depend on the order of the request's payload.
- Concurrency: `Interlocked.Exchange`, `volatile`, and the interleaving of HTTP requests with the worker loop are not modelled. `SetTimers` is one atomic step. The loop does not read the stored list; its activity checks come from the script.
- TimerServices.TimerService.ExecuteAsync: the wait for the wake signal is a script answer and does not call `TakeWake`. The semaphore and the loop are modelled separately.
- TimerServices.TimerService.ExecuteAsync: an exception from image creation is not modelled. `UpdateTimerImage` (TimerService.cs:84, :92) calls `CreateImage`, which throws `ArgumentOutOfRangeException` on the input of Findings row 2. The `catch` at TimerService.cs:100 filters on `OperationCanceledException` only, so such an exception ends the worker with no `SwitchToDefaultTheme`. `Ending` has no faulted case, so `Explains` does not describe such a run. Rendering is an upload call in this model, and its outcome is not scripted.
- TextFitting.FitByTruncation, TextFitting.DrawFitted: text is a sequence of Unicode scalar values, while `text.Length > 1` and `[..^1]` count UTF-16 code units. For a too-wide name of one character outside the Basic Multilingual Plane, such as one emoji, the source keeps a lone high surrogate plus '…' and may draw it. The model answers `NotDrawn`.
- TimerOrder.TextLessEq: code-point order differs from UTF-16 ordinal order when characters outside the Basic Multilingual Plane are compared with characters from U+E000 to U+FFFF.
- Device gateway: calls are recorded, not sent. SmallTvService catches and logs HTTP errors, so a device call never fails and cancellation surfaces only at the waits. SmallTvService is not part of this model.
- Logging and timing: log messages and the `Stopwatch` in `UpdateTimerImage` are left out.
- Image contents: the image is not rendered. `UpdateTimerImage` is the upload call; the bytes uploaded are not modelled.
- Pixels and encodings: SkiaSharp drawing, the gradient and background bitmap, JPEG and GIF encoding, and typeface and colour loading are left out.
- TimerImage.CreateImage: positions are exact reals, not `float`. The half-height vertical offset `y + bounds.Height / 2` in the draw call is left out.
- Text measurement: measurement is the parameter `width(text, size)`. Font sizes are reals; the float32 product `*= 0.9f` is exact multiplication by 0.9.
- TextFitting.DrawFitted: it requires that some number of shrink steps makes an auto-scaled text fit. With a measure that never fits, the source loops forever.
- TimerFormat.FormatTimer: `TotalHours` is a `double`. The model compares exact tick counts, so a rounding difference near 99 hours on very large values is not modelled.
- Milliseconds: `TimeSpan.FromMilliseconds` of the `double` RemainingTime is taken as whole milliseconds.
- JSON binding: payload binding and the remaining fields of the Alexa payload types are left out.
- Debug image endpoint: the DEBUG `Test` action builds random timers and is left out.
- Host: Program, configuration binding and service registration are left out.

## Findings

| source | as written | input that shows it | evidently intended | confidence | as-written member | corrected member |
|---|---|---|---|---|---|---|
| SmallTvTimerScreen/Services/TimerService.cs:60-63 | `Release` on `SemaphoreSlim(0, 1)` throws `SemaphoreFullException` when a wake is already pending; the exception escapes `NextTimer`, which answers 500 after the list was already swapped | an active timer is set while the worker is busy (mid display cycle or upload), then cleared, then set again before the worker returns to its wait | a second rising edge while a wake is pending coalesces into the pending wake | medium, not executed | TimerServices.PendingWakeRace | TimerServices.PendingWakeCoalesced |
| SmallTvTimerScreen/Services/TimerImageGenerator.cs:241-255 | a wide text of two or more characters that is all '…' after truncation leaves nothing once `TrimEnd('…')` runs, and `[..^1]` on the empty string throws out of image creation and the worker loop | a timer label beginning with a run of '…' wider than 200 px at the name size, e.g. "……a" with a measure that finds every candidate too wide | a candidate with nothing left once trimmed is not drawn, like a wide single character | medium, not executed | TextFitting.LeadingEllipsesFault | TextFitting.FitByTruncationGuarded |
