# Portfolio page script, modelled in Dafny

This project models the interactive core of a one-page portfolio site's
`script.js`, and proves properties of that model:

- **E-mail check** (`Email`): `isValidEmail` tests a string against
  `^[^\s@]+@[^\s@]+\.[^\s@]+$`. `IsValidEmail` says what the pattern accepts.
  It is proved equal to a structural description: no white space, exactly one
  `@` with something before it, and a `.` after the `@` that is neither the
  first nor the last character there.
- **Contact form** (`Contact`): the submit handler rejects a form with an
  empty or missing field, then one whose address fails `isValidEmail`.
  Otherwise it navigates to a `mailto:` link built from the fields, shows a
  success notification and resets the form to its default values. Every
  outcome is announced with a notification.
- **Notifications** (`Notifications`): `showNotification` removes every
  notification element and appends a new one. It then starts the element's
  timer chain: slide in at +100 ms, slide out at +5000 ms, and detach 300 ms
  later, but only if still attached. The document is a value `Doc` holding
  the elements, the attached ones, a timer queue and a clock. `Shown` and
  `Fired` are its transitions, and `Consistent` is the invariant both keep.
  Class `Page` performs them in place.
- **Throttle** (`Throttle`): `throttle(func, limit)` forwards a call only
  while its `inThrottle` flag is clear. A forwarded call sets the flag, and a
  timer clears it after the delay `setTimeout` makes of `limit`: the number
  wrapped to a signed 32-bit integer, and zero when that is negative. `Ran`
  and `Forwarded` give the meaning of a whole sequence of timed calls. Class
  `Throttled` is the closure, updated one call at a time.
- **Navigation** (`Navigation`): the navbar's `scrolled` flag, and the
  `active` flags of the mobile menu and its toggle. A third handler, run when
  a section comes into view, makes the first nav link pointing at it the only
  active link. Class `NavBar` holds these flags.

`Wrappers` holds the `Option` type.

## Model

| member | source | states |
|---|---|---|
| Email.IsValidEmail | script.js:195-197 | `isValidEmail`: the anchored pattern matches for some split of the string into a non-empty local part without white space or `@`, an `@`, a non-empty host part, a `.`, and a non-empty suffix, each part free of white space and `@` |
| Email.ValidEmailIff | script.js:195-197 | `isValidEmail(s)` holds exactly when `s` has no white space, exactly one `@` with something before it, and a `.` strictly inside the part after the `@` |
| Email.MatchIsWellFormed | script.js:195-197 | every string the pattern matches has that structural shape |
| Email.WellFormedMatches | script.js:195-197 | every string of that structural shape is matched by the pattern |
| Email.Examples | script.js:196 | `a@b.c` is accepted and `a@b.` is rejected |
| Contact.Decide | script.js:141-154 | the handler sends exactly when all three fields are present and non-empty and the address passes `isValidEmail` |
| Contact.MailtoLink | script.js:152-154 | the link is `mailto:nolan974pro@gmail.com?subject=`, then `enc("Contact Portfolio - " + name)`, then `&body=`, then `enc` of `"Nom: " + name + "\nEmail: " + email + "\n\nMessage:\n" + message` |
| Contact.MissingFieldFirst | script.js:141-144 | a missing or empty field is reported as such, whatever the address looks like |
| Contact.MalformedEmailRejected | script.js:146-149 | with every field filled in, the bad-address error comes exactly when the address is not well formed |
| Contact.Notice | script.js:142-168 | the text announced: the missing-fields error, the bad-address error, or the thank-you message when the form is sent |
| Contact.NoticeKind | script.js:142-168 | the notification type: `error` for both rejections, `success` when the form is sent |
| Contact.OutcomeAnnounced | script.js:141-168 | every error is announced with an error notification carrying one of the two error texts; a sent form is announced with the thank-you success notification |
| Contact.Params | script.js:154 | a link split into subject and body gives back the link when reassembled, and the subject holds no `&` |
| Contact.MailtoRoundTrip | script.js:152-154 | since the encoder escapes `&`, the subject and body can be recovered from the link exactly |
| Contact.ContactForm.Submit | script.js:131-171 | the outcome is `Decide` of the fields; the page shows the matching notice; on an error the location and the fields are unchanged; on success the location is the mailto link and every field is back to its default value |
| Notifications.Appended | script.js:203-241 | the document after the new element replaces every attached notification and its slide-in (+100 ms) and slide-out (+5000 ms) timers are registered behind every timer due no later |
| Notifications.Shown | script.js:201-249 | `showNotification(message, type)` at the current clock: a new element with the message and type, off screen at 400px, appended as above |
| Notifications.Fired | script.js:236-248 | the earliest timer fires at its due time: a slide-in moves its element to 0px; a slide-out moves it to 400px and registers its detach 300 ms later; a detach removes it only if it is still attached |
| Notifications.Icon | script.js:211 | the icon class: `fa-check-circle` for `success`, `fa-exclamation-circle` for `error`, `fa-info-circle` for any other type |
| Notifications.Background | script.js:221 | the background colour: `#10b981` for `success`, `#ef4444` for `error`, `#3b82f6` for any other type |
| Notifications.ClassName | script.js:208 | the class list is `notification notification-` followed by the type |
| Notifications.Markup | script.js:209-214 | the `innerHTML`: a content `div` holding the type's icon and a `span` with the message |
| Notifications.NewElement | script.js:207-227 | the element created by a call carries the message and the type (hence its class list, markup and colour) and starts 400px to the right |
| Notifications.KindStyles | script.js:211-221 | a success shows the check icon on `#10b981`, an error the exclamation icon on `#ef4444`, the default type the info icon on `#3b82f6`; the three icons and the three colours are pairwise distinct |
| Notifications.UnknownKindLooksInfo | script.js:208-221 | a type other than `success` or `error` gets the info icon and colour, while its class name keeps the type it was given |
| Notifications.MarkupCarriesMessage | script.js:209-214 | the message sits verbatim and unescaped inside the `<span>` of the markup |
| Notifications.ShownReplaces | script.js:203-233 | after a call exactly the new element is attached; it carries the message, the type and the off-screen offset; every earlier element is kept |
| Notifications.ShownLooks | script.js:207-221 | the element a call attaches has the class list `notification notification-` plus the type, markup wrapping the message after the type's icon, and the type's background colour |
| Notifications.ShownQueue | script.js:236-248 | a call cancels no timer: the queue gains exactly the new element's slide-in and slide-out |
| Notifications.ShownConsistent | script.js:201-249 | a call keeps the document invariant (at most one attached, timer queue sorted and owned) |
| Notifications.FiredConsistent | script.js:236-248 | firing the earliest timer keeps the document invariant |
| Notifications.RunUntil | script.js:236-248 | after time advances to `now`, nothing due by `now` is pending, the invariant holds and no element was attached on the way |
| Notifications.OthersUntouched | script.js:236-248 | a timer acts only on its own element: every other element, and whether it is attached, stays as it was |
| Notifications.LeavesOnlyByOwnDetach | script.js:243-247 | an attached element leaves exactly when the firing timer is its own detach, due 5300 ms after its creation |
| Notifications.NothingAfterDetach | script.js:243-247 | once an element's detach has fired, none of its timers is left |
| Notifications.StaysUntil | script.js:241-247 | an attached element is still attached at every time before its creation plus 5300 ms |
| Notifications.GoneBy | script.js:241-247 | with timers firing on time, no element is attached at its creation plus 5300 ms or later |
| Notifications.ShownLifetime | script.js:201-249 | a notification shown at `c` is the only one attached until just before `c + 5300`, and, with timers firing on time, none is attached afterwards, whatever older timers remain |
| Notifications.ShownTimeline | script.js:227-242 | a call keeps every element's offset in step with its pending timers |
| Notifications.RunTimeline | script.js:236-242 | advancing time keeps every element's offset in step with its pending timers |
| Notifications.SettledOffset | script.js:227-242 | with timers firing on time and nothing overdue, an element is off screen before creation plus 100 ms, on screen until creation plus 5000 ms, then off screen |
| Notifications.ShownOffsets | script.js:227-242 | with timers firing on time, the notification shown at `c` is at 400px before `c + 100`, at 0 until `c + 5000`, and at 400px afterwards |
| Notifications.Page.Schedule | script.js:236-248 | registering a timer places it behind every timer due no later than it, and changes nothing else |
| Notifications.Page.RemoveExisting | script.js:203-204 | every attached notification is removed and nothing else changes |
| Notifications.Page.ShowNotification | script.js:201-249 | the new state is `Shown` of the old one, with the default type `info` |
| Notifications.Page.FireNext | script.js:236-248 | the new state is `Fired` of the old one |
| Notifications.Page.AdvanceTo | script.js:236-248 | the new state is `RunUntil` of the old one |
| Throttle.Delay | script.js:388 | the release delay is below 2^31 ms, and for a limit in the signed 32-bit range it is the limit, or zero when the limit is not positive |
| Throttle.WrappedLimits | script.js:388 | limits outside the 32-bit range wrap: 2^31 gives no delay, 2^32 + 16 gives 16 ms, and -2^32 + 5 gives 5 ms |
| Throttle.HugeLimitThrottlesNothing | script.js:384-388 | with a limit of 2^31 a call 1 ms after the first one runs too |
| Throttle.Admit | script.js:384-389 | a call at `now` meets the flag after a due release; if it is clear the call runs and the flag is set until `now` plus the delay, otherwise nothing changes |
| Throttle.GateAfter | script.js:384-389 | the flag and its release time after a sequence of calls, starting clear (`inThrottle` is `undefined`) |
| Throttle.Ran | script.js:380-391 | the positions of the calls that reach `func` are valid and strictly increasing |
| Throttle.Forwarded | script.js:386-387 | `func` receives, in order, the arguments of exactly the calls that ran |
| Throttle.CallStep | script.js:383-390 | one more call extends the gate, the calls that ran and the forwarded arguments by that call alone |
| Throttle.GateShape | script.js:384-389 | the flag is clear until the first call runs, then set until the delay after the last call that ran |
| Throttle.RanPrefix | script.js:384-389 | later calls only add positions after the earlier ones: no dropped call is replayed |
| Throttle.DecisionIsFinal | script.js:384-389 | whether a call runs is decided when it happens |
| Throttle.RunsIff | script.js:384-389 | a call runs exactly when it comes at least the delay after every earlier call that ran (the "if" half with release timers firing on time) |
| Throttle.FirstCallRuns | script.js:381-386 | the first call runs at once with its own arguments |
| Throttle.DroppedInWindow | script.js:384-389 | a call within the delay of an earlier call that ran is dropped |
| Throttle.QuietGapRuns | script.js:384-389 | with release timers firing on time, a call at least the delay after the previous call runs |
| Throttle.Spacing | script.js:384-389 | the calls that run are at least the delay apart |
| Throttle.NoLimitRunsAll | script.js:384-389 | with release timers firing on time, when the delay is zero (a limit of zero or less, or one that wraps to that) every call runs |
| Throttle.Throttled.Invoke | script.js:382-390 | a call runs exactly when the gate is open after any due release; the state stays the one the calls so far lead to, and `func` gets the call's arguments exactly when it runs |
| Navigation.AfterClick | script.js:28-47 | a click runs the target's listener (the toggle flips both flags, a nav link clears both) and then the document's (a click outside the toggle and the menu clears both) |
| Navigation.ClickKeepsSync | script.js:28-47 | the menu's and the toggle's `active` flags stay equal under every click |
| Navigation.ToggleFlips | script.js:28-31 | a toggle click opens a closed menu and closes an open one |
| Navigation.ToggleTwiceRestores | script.js:28-31 | two toggle clicks restore both flags |
| Navigation.ClickAwayCloses | script.js:34-47 | a link click, or a click outside both elements, clears both flags |
| Navigation.ClickInsideKeeps | script.js:42-47 | a click inside the menu but not on a link changes nothing |
| Navigation.FirstIndex | script.js:319-320 | the result is the first position holding the href, or none exactly when no link has it |
| Navigation.Highlight | script.js:316-322 | the nav-link flags after a section comes into view: every flag cleared, then set for the first link whose `href` is `#` followed by the section's `id`, if there is one |
| Navigation.HighlightOneHot | script.js:312-322 | after a section comes into view at most one link is active; one is exactly when some link points at the section, and it is the first such link |
| Navigation.AfterEntry | script.js:312-323 | one observer entry: an entry in view sets the flags to `Highlight` of its section's `id`, an entry out of view leaves them as they are |
| Navigation.AfterEntries | script.js:311-324 | the observer callback applies `AfterEntry` to the entries in the order they are reported |
| Navigation.EntriesLastWins | script.js:311-324 | after the callback the flags are those the last entry in view sets, or unchanged when no entry is in view |
| Navigation.EntriesKeepOneHot | script.js:311-324 | the callback never leaves two links active |
| Navigation.NavBar.OnScroll | script.js:19-25 | `scrolled` is set exactly when the scroll position exceeds 50 |
| Navigation.NavBar.Click | script.js:28-47 | the menu flags become `AfterClick` of the old ones: the target's listener runs, then the document's |
| Navigation.NavBar.ClearActive | script.js:316 | every nav link loses `active` |
| Navigation.NavBar.FindLink | script.js:319 | the loop returns `FirstIndex` of the links' hrefs |
| Navigation.NavBar.OnEntry | script.js:312-323 | the link flags become `AfterEntry` of the old ones |
| Navigation.NavBar.OnIntersections | script.js:311-324 | the link flags become `AfterEntries` of the old ones |

## Left out

- ScrollReveal configuration (script.js:51-123): third-party library set-up with no logic of its own.
- Smooth scrolling, `scrollIntoView`, `window.scrollTo` and the parallax transform: browser APIs and a floating-point multiply.
- The scroll indicator, the typing animation and the floating-label colour handlers: presentation extras.
- CSS text, inline style strings other than the offset and background colour, and the injected style element: presentation only.
- `encodeURIComponent`: a parameter `enc` of the contact handler. Only its escaping of `&` is assumed, in `MailtoRoundTrip`.
- `FormData`, `console.log`, the `Date` timestamp, and the navigation itself: `window.location.href` is a field holding the link.
- Wall-clock timers and the event loop: replaced by an explicit clock and a timer queue. Each timer is taken to fire exactly at its due time, and a timer due at the time of a new call fires before the call. `setTimeout` promises only not to fire early; a busy main thread or a background tab fires later. So these state exact times only under that assumption: the ⇐ half of `Throttle.RunsIff`, `Throttle.QuietGapRuns`, `Throttle.NoLimitRunsAll`, `Notifications.GoneBy`, `Notifications.SettledOffset`, `Notifications.ShownOffsets` and the second half of `Notifications.ShownLifetime`. `Notifications.StaysUntil`, `Throttle.DroppedInWindow`, `Throttle.Spacing` and the ⇒ half of `Throttle.RunsIff` are lower bounds that also hold when timers fire late.
- Notifications.Page.ShowNotification: its contract ties the new state to `Shown` and does not restate that the invariant is kept; `ShownConsistent` proves that separately.
- HTML parsing of the markup: the message is not escaped, so the page renders any markup it contains. The model states the raw markup and nothing about rendering.
- Stale timers of a removed notification are not cancelled. They stay harmless because each acts only on its own element and the detach checks `parentNode`.
- Throttle.Throttled.Invoke: `func` is taken to return normally and not to call the wrapper again. The source calls `func` before it sets `inThrottle`, so a `func` that throws leaves the flag clear with no release timer, and a call from inside `func` runs as well. `RunsIff`, `Spacing`, `DroppedInWindow` and `GateShape` hold only for such a `func`. Its `this` binding and its other effects are left out too.
- Throttle.Delay: the limit is an integer number of milliseconds. A fractional limit (truncated towards zero by `setTimeout`) and a limit that is not a number (delay zero) are not modelled.
- Navigation.NavBar.OnScroll: the scroll position is a `real`; the browser's floating-point `scrollY` is not modelled.
- The nav links are taken to sit inside the menu. A link outside it would be cleared by the document listener as well, with the same result.
- The initial state of the page is taken as not scrolled, menu closed and no link active.
- `#navbar`, `#nav-toggle` and `#nav-menu` are taken to exist. `initNavigation` does not check for them, so on a page without `#nav-toggle` it throws at the toggle's listener and the link and document listeners are never bound.
- Navigation.Anchor: the link is matched by comparing its `href` with `#` followed by the raw section `id`. This agrees with the selector `.nav-link[href="#id"]` only for an `id` without a backslash, a double quote or a line break. A backslash starts a CSS escape, so it changes which `href` matches (`a\62` selects `#ab`). A quote or a line break makes the selector invalid, and `querySelector` throws.
