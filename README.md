# RXT Agency landing page — verified model of the page script's widgets

This project models the interactive core of the agency landing page's
browser script (`script.js`) in Dafny and proves what each widget promises:

- **Phone mask** (`PhoneMask`): the live `+7 (ddd) ddd-dd-dd` formatter of
  the two phone fields. It strips non-digits, drops one leading `7` (or else
  `8`) and lays out at most ten digits progressively.
- **Field validation** (`Validation`): the three rules of `validateField`
  and `validateModalField`, tried in order: required-after-trim, the e-mail
  pattern, the unanchored phone pattern. Both regular expressions are
  written out as string predicates. `\s` is the fixed ECMAScript whitespace
  set (`Text.IsSpace`), and `\d` is the ASCII digits.
- **Form controllers** (`Forms`): error state per field, blur and input
  re-validation, and the submit state machine. Submitting validates every
  field, then either aborts or runs busy button, abstract outcome and
  unconditional restore. The contact form and the order form differ in
  the modals a success opens and closes. The order form also holds the
  service selector among its fields, which the `data-modal` trigger
  pre-fills.
- **Modal manager and scroll lock** (`Modals`): the set of active modals,
  the four body-style fields, the window scroll offset and the mobile menu
  flag, which writes the same `overflow` field. Also the service-details
  lookup of the `data-modal` trigger.
- **Portfolio carousel with category filter** (`Portfolio`), **reviews
  carousel** (`Reviews`), with shared index arithmetic in `Slider`, and the
  **FAQ accordion** (`Faq`), with row-of-flags helpers in `Flags`.

Pure parts of the script are functions with lemmas: the mask, the
validator's decision, the regex predicates and the scroll-offset
encoding. Parts that update page state in place are classes: `Page`,
`Form`, `Grid`, `Carousel`, `Accordion` and `ServicePanel`.
Their methods' postconditions give the whole new state in terms of the old
one. The per-item class flags that the source rewrites in loops are arrays.

The scroll lock works as follows. `showModal` saves the offset only in
the body's `top` style. The fixed body then leaves the window at offset 0
until the lock is released. `closeModal` always unlocks and decodes `top`.
Opening and closing one modal restores the offset exactly
(`Modals.RestoreAfterLock`, `Modals.Page.OpenThenClose`). A modal shown
over an already locked page saves `-0px`, so closing it scrolls to the
top of the page (`Modals.Page.ShowOverShown`). When Escape closes two or
more active modals, the first close empties `top`, and the page ends at
offset 0 (`Modals.Page.Escape`). Closing the menu clears `overflow` even
while a modal is open (`Modals.Page.CloseMenu`).

Three more behaviours of `script.js`:
- The phone rule accepts any value that contains a complete number, because its pattern is not anchored.
- The reviews carousel has no auto-advance timer.
- A scroll offset is restored exactly only when a single modal is closed over a page locked once.

## Model

| member | source | states |
|---|---|---|
| `PhoneMask.DigitsOf` | script.js:302 | removing the non-digits leaves only digits and never lengthens the value |
| `PhoneMask.StripCountry` | script.js:303-307 | the digits lose their first character exactly when it is `7` or `8`; nothing else is removed |
| `PhoneMask.Format` | script.js:309-321 | the progressive layout: each group appears, with its separator, once the digits reach into it |
| `PhoneMask.Mask` | script.js:301-323 | the masked value always starts with `+7 ` |
| `PhoneMask.DigitsOfFormat` | script.js:309-321 | the layout's digits are the country `7` followed by the first ten national digits, in order |
| `PhoneMask.MaskDigits` | script.js:302-321 | the masked value keeps at most ten national digits: its digits are `7` plus the first ten left after the country digit is dropped |
| `PhoneMask.MaskIdempotent` | script.js:301-323 | masking the mask's own output returns it unchanged |
| `PhoneMask.MaskComplete` | script.js:309-321 | with at least ten national digits the value is exactly `+7 (ddd) ddd-dd-dd`, 18 characters |
| `PhoneMask.MaskPartialIsShort` | script.js:309-321 | with fewer than ten national digits the value is shorter than 18 characters |
| `PhoneMask.MaskExample` | script.js:302-323 | `89161234567` becomes `+7 (916) 123-45-67` |
| `Text.Trim` | script.js:337 | the trimmed value is a run of the original, everything before and after it is whitespace, and it neither starts nor ends with whitespace |
| `Text.Substring` | script.js:311-320 | `substring` with both bounds clamped to the string's length, for a start no greater than the end, as in every call the mask makes |
| `Text.Includes` | script.js:515 | `includes`: the text contains the pattern at some position |
| `Text.Decimal` | script.js:15 | `${n}` renders a whole number as a non-empty run of decimal digits |
| `Text.ParseInt` | script.js:32 | `parseInt` yields a number exactly when digits follow the leading whitespace and an optional sign |
| `Text.TrimEmptyIffBlank` | script.js:337 | `trim()` yields the empty string exactly when every character is whitespace |
| `Text.ParseNegativePixels` | script.js:32 | `parseInt` of `-{n}px` is `-n` for every whole `n` |
| `Validation.EmailPattern` | script.js:345 | the e-mail regex read literally: a run of non-space non-`@` characters, `@`, another such run, `.`, and a third such run |
| `Validation.EmailPatternIsShape` | script.js:345 | the e-mail regex accepts exactly the whitespace-free strings with one `@` (not first) and a `.` with characters on both sides between the `@` and the end |
| `Validation.ContainsTel` | script.js:355 | the unanchored phone regex: the template `+7 (ddd) ddd-dd-dd` occurs somewhere in the value |
| `Validation.ShortHasNoTel` | script.js:355 | a value shorter than the 18-character template never passes the phone pattern |
| `Validation.CompleteFitsTemplate` | script.js:355 | the complete mask layout matches the phone pattern at its first character |
| `Validation.Validate` | script.js:337-363 | a reported error implies its rule's preconditions: required, or the matching type with a non-empty value |
| `Validation.ValidateReportsFirstBroken` | script.js:336-363 | the verdict is the first rule in the order required, e-mail, phone that the field breaks; the field passes exactly when it breaks none |
| `Validation.EmptyOptionalPasses` | script.js:344-361 | an empty optional field passes whatever its type: the pattern rules skip empty values |
| `Validation.BlankRequiredFails` | script.js:337-341 | a required whitespace-only value is reported as missing |
| `Validation.MaskedPhoneVerdict` | script.js:354-360 | a masked phone value passes exactly when ten national digits were typed, and is otherwise an invalid phone |
| `Modals.RestoreAfterLock` | script.js:10-32 | decoding the saved `top` of offset `n` scrolls back to exactly `n`, 0 included |
| `Modals.LockTop` | script.js:15 | the saved offset is a minus sign, the offset's decimal digits and `px` |
| `Modals.RestoredScroll` | script.js:24-32 | an empty `top` decodes to offset 0; `RestoreAfterLock` gives the decoding of a saved offset |
| `Modals.FirstIncluding` | script.js:514-516 | the index found is of the first option whose text contains the service; none is found only when no option's text contains it |
| `Modals.Page.ShowModal` | script.js:6-18 | a present modal becomes active, the body is locked with `top` = `-{offset}px` and the window reads offset 0; a missing id changes nothing |
| `Modals.Page.CloseModal` | script.js:20-34 | a present modal becomes inactive, all four style fields are cleared and the window scrolls to the offset decoded from the old `top`; a missing id changes nothing |
| `Modals.Page.ShowOverShown` | script.js:6-34 | showing a second modal over a first and closing it leaves the page unlocked at offset 0, whatever the offset was before |
| `Modals.Page.OpenThenClose` | script.js:6-34 | showing then closing a modal leaves the page unlocked at the offset it had |
| `Modals.Page.Escape` | script.js:557-563 | no modal stays active; with one active modal the saved offset is restored, with two or more the page ends at offset 0 |
| `Modals.Page.ToggleMenu` | script.js:64-68 | the menu flips and `overflow` is `hidden` exactly when it is now open |
| `Modals.Page.CloseMenu` | script.js:71-77 | a navigation link closes the menu and clears `overflow`, even under an open modal |
| `Modals.ServicePanel.ShowDetails` | script.js:476-480 | a known tag shows its catalogue entry; an unknown tag or a missing panel leaves the content untouched |
| `Forms.Form.PreFill` | script.js:511-521 | the selector's field takes the value of the first option whose text contains the service; with no match or no selector every value stays as it was |
| `Forms.Form.OpenFromTrigger` | script.js:468-524 | the details panel is filled only for a known service tag and the order form's selector is pre-filled only for the order modal; a present modal is then shown with the body locked at the old offset; a missing id leaves the page untouched; the menu is never affected |
| `Forms.Form.ValidateField` | script.js:328-364 | the field's error becomes the validator's verdict, the answer is whether it passed, and a passing field shows no error |
| `Forms.Form.Blur` | script.js:369 | leaving a field refreshes its error state and no other |
| `Forms.Form.Input` | script.js:370-375 | the typed value (masked for a phone field) is stored, and the field is re-validated only if it already showed an error |
| `Forms.Form.ValidateAll` | script.js:383-388 | every field's error state is refreshed, without short-circuit, and the result is whether all fields pass |
| `Forms.Form.BeginSubmit` | script.js:379-402 | if any field fails, nothing is sent and the button is untouched; otherwise the button is disabled with the busy caption and its old caption is returned |
| `Forms.Form.FinishSubmit` | script.js:404-424 | on success the values are reset and the success modal is shown with the body locked; the order form first closes the order modal, so the lock saves the offset that close restored; on failure an alert is raised and the page is untouched; the button is always re-enabled with the saved caption; the menu is never affected |
| `Forms.Form.Submit` | script.js:379-425 | a submission that goes ahead always ends with the button enabled under its original caption, with the page as `FinishSubmit` leaves it; an aborted one changes only the error display and leaves the page untouched |
| `Slider.NextIndex` | script.js:223-229 | `next` advances by one exactly when a later position exists and never leaves `[0, last]` |
| `Slider.PrevIndex` | script.js:216-221 | `prev` steps back by one exactly when the index is positive |
| `Slider.SwipeIndex` | script.js:257-266 | a move left by more than 50 units is `next`, right by more than 50 is `prev`, anything shorter does nothing; the reviews swipe at script.js:901-916 is the same |
| `Slider.EndsDoNotWrap` | script.js:216-229 | `next` at the last position and `prev` at 0 are no-ops |
| `Slider.MovesStayInRange` | script.js:216-229 | buttons and swipes keep the index within `[0, max(0, n-1)]` |
| `Portfolio.HiddenFor` | script.js:150-158 | an item is visible exactly when the filter is `all` or equals its category |
| `Portfolio.ShowAllShowsEverything` | script.js:151-153 | the `all` filter leaves every item visible |
| `Portfolio.UnmatchedFilterHidesAll` | script.js:150-158 | a filter no category matches leaves no item visible |
| `Portfolio.EmptyFilterDisablesBoth` | script.js:205-213 | with nothing visible both buttons of every present pair are disabled |
| `Portfolio.Grid.constructor` | script.js:231-239 | the index at 0 and, with a track, the initial refresh leaves each present pair showing it; items start visible as the markup has them |
| `Portfolio.Grid.CountVisible` | script.js:177-179 | the count is the number of items not hidden |
| `Portfolio.Grid.UpdateButtons` | script.js:199-213 | each pair with both buttons shows the index (`prev` off at 0, `next` off from the last visible item); other pairs are untouched |
| `Portfolio.Grid.UpdateSlider` | script.js:181-214 | without a track nothing changes; with one the buttons show the index |
| `Portfolio.Grid.Filter` | script.js:142-163 | the clicked button is the only active one, items are hidden by the filter and the index is reset to 0; with a track present pairs agree with the index, otherwise no button changes; absent pairs are always untouched |
| `Portfolio.Grid.Prev` | script.js:216-221 | the index becomes `PrevIndex` of the old one and stays in range |
| `Portfolio.Grid.Next` | script.js:223-229 | the index becomes `NextIndex` over the visible count and stays in range |
| `Portfolio.Grid.Swipe` | script.js:257-266 | the index moves as `SwipeIndex` prescribes |
| `Reviews.PageCount` | script.js:827 | there are no pages exactly when there are no cards |
| `Reviews.Carousel.constructor` | script.js:825-841 | two reviews per page above a 768-unit viewport, else one; one dot per page with the first lit, when the dot container exists; no refresh runs, so the buttons keep their markup state |
| `Reviews.PageCountIsCeiling` | script.js:826-827 | the pages are `ceil(cards / perView)`: they cover every card, none is empty, and there are none only without cards |
| `Reviews.Carousel.Update` | script.js:843-867 | without a track or cards nothing changes; otherwise exactly the current page's dot is lit and the buttons follow the index |
| `Reviews.Carousel.ClickDot` | script.js:835-838 | dot `i` sets the page to `i`; with a track exactly that dot is lit, without one dots and buttons are untouched |
| `Reviews.Carousel.Prev` | script.js:869-876 | the page becomes `PrevIndex` of the old one; after a step with a track and cards exactly the new page's dot is lit and the buttons follow; otherwise dots and buttons are untouched |
| `Reviews.Carousel.Next` | script.js:878-885 | the page becomes `NextIndex` over the page count; after a step with a track and cards exactly the new page's dot is lit and the buttons follow; otherwise dots and buttons are untouched |
| `Reviews.Carousel.Swipe` | script.js:901-916 | the page moves as `SwipeIndex` prescribes and stays within `[0, pages-1]`; after a move with cards the dots and buttons show the new page; otherwise they are untouched |
| `Faq.Clicked` | script.js:278-288 | after a click only the clicked item can be open, and it is open exactly when it was closed |
| `Faq.ClickLeavesAtMostOne` | script.js:277-289 | after any click at most one item is open: none if the clicked one was open, exactly it otherwise |
| `Faq.ClickTwiceClosesAll` | script.js:277-289 | clicking a closed item twice leaves every item closed |
| `Faq.Accordion.Click` | script.js:277-289 | the open flags become the click's result on the old flags |

## Left out

- DOM lookups, event wiring, the HTML templating of the service-details panel and the console messages are not modelled. The panel is represented by the catalogue entry it shows. An error message is represented by its error kind, and the Russian message texts are fixed constants.
- The 1500 ms simulated request is an outcome parameter, since time is not modelled. The 300 ms hand-off before the order form's success modal is modelled as running straight after the close. In the browser the button is restored first, but the two steps touch disjoint state.
- `FormData` collection and the logging of submitted data are not modelled: they only produce output. The blocking `alert` is the `alerted` result.
- The stat counter animation, the header's scroll class, smooth anchor scrolling and the carousel tracks' pixel offsets are not modelled. All of them are floating-point or measured layout work.
- Scroll-reveal, lazy image loading, the scroll `debounce` and the social widget are not modelled. They are browser callbacks or a trivial toggle.
- Scroll offsets are whole non-negative numbers. The window's clamp at the bottom of the page and fractional offsets are not modelled.
- `Text.ParseInt` does not model the `0x` prefix that `parseInt` accepts with the default radix. The lock only ever stores `""` or `-{n}px`.
- Strings are sequences of Unicode scalar values rather than UTF-16 code units. The only slices taken are of digit strings, where the two agree.
- `Modals.ServicePanel.ShowDetails` does not model lookups of inherited object keys such as `toString`, for which the script would throw. The catalogue is a map.
- The burger button and the navigation list toggle their `active` class together, so one menu flag represents both.
- The reviews carousel's per-view count is fixed at start-up, as in the script. Before the first refresh its buttons are taken to be enabled, which is the markup default.
- `Modals.Page.Escape` closes the active modals in an unspecified order rather than document order. Every postcondition holds for any order.
- Start-up states that come from the markup are taken as given rather than derived. Portfolio items start visible, FAQ items start closed, and no modal is open on an unlocked page.
- Swipe positions are `int` in the model. The script reads `changedTouches[0].screenX`, a floating-point value, so comparisons with fractional positions are not modelled.
- The inline order button the service-details panel renders (close the details modal, then show the order modal after 300 ms) is not a separate operation. It is a `CloseModal` followed by `ShowModal`.
- `Portfolio.Grid.Prev`, `Next` and `Swipe` require a slider track, and `Reviews.Carousel.Prev`/`Next`/`Swipe` require their button or track. Their listeners are attached only when those elements exist.
