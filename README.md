# Front-end behaviour of the UCMPL marketing site, in Dafny

This project models the client-side logic of the site's two scripts,
`assets/js/main.js` and `assets/js/animations.js`, and proves properties of it:

- **Contact-form validation** (`validateForm`, `showFieldError`, `clearFieldError`).
  Every required control is checked in document order. The checks are: blank after
  `trim`, the email pattern on `email` controls, and the phone pattern, after
  whitespace removal, on `tel` controls. Each failing check replaces the control's
  error message and colours its border `#ff4757`. The form is valid exactly when
  every required control passes. The three messages form a datatype, and
  `MessageText` gives their text. Whitespace is the set that ECMAScript's `trim`
  removes and `\s` matches: tab, line feed, U+000B, U+000C, carriage return,
  space, U+00A0, U+1680, U+2000 to U+200A, U+2028, U+2029, U+202F, U+205F, U+3000
  and U+FEFF. Both regular expressions are defined twice: once
  in their literal shape, and once as the direct characterisation the validator
  uses. A lemma proves that the two agree.
- **`throttle` and `debounce`** (both copies of `throttle` are identical). Each
  wrapper's closure state is a class. Its behaviour over a trace of calls and timer
  firings is a pure step function. Lemmas bound how often the wrapped callback
  runs and say which arguments it runs with.
- **The mobile menu**: the toggle button flips `active` on the navigation and on
  itself, and any navigation link removes it from both.
- **Scroll thresholds**: the header is `scrolled` exactly past 100 pixels, and the
  scroll-to-top button is visible exactly past 300 pixels.
- **`animateElement`'s reveal rule** and the **`TypingAnimation`** typewriter.

The modules are:

- `Text`: whitespace, `trim` and `replace(/\s/g, '')`.
- `Patterns`: the two regular expressions.
- `FormValidation`: the form checks.
- `Timers`: `throttle` and `debounce`.
- `Dom`: an element's class list, text and inline style. Text is a sequence of
  UTF-16 code units, as in JavaScript.
- `Wrappers`: the `Option` datatype.
- `MobileMenu`, `ScrollRules` and `Animations`: the features above.

Time is not modelled. A timer firing is an explicit event. The scroll offset
`window.pageYOffset` is a parameter, of type `real`.

## Model

| member | source | states |
|---|---|---|
| Text.IsSpace | assets/js/main.js:203 | the characters `trim` removes and `\s` matches are exactly the ECMAScript WhiteSpace and LineTerminator code points listed above |
| Text.Trim | assets/js/main.js:203 | `trim` never leaves whitespace at either end of its result |
| Text.TrimCutsOnlySpace | assets/js/main.js:203 | the trimmed value is a contiguous slice of the original, and everything cut away on both sides is whitespace |
| Text.BlankIffAllSpace | assets/js/main.js:203 | `!field.value.trim()` holds exactly when every character of the value is whitespace |
| Text.StripSpaces | assets/js/main.js:222 | `replace(/\s/g, '')` leaves no whitespace and never lengthens the value |
| Text.StripSpacesConcat | assets/js/main.js:222 | stripping acts on each character on its own, so it distributes over concatenation |
| Text.StripSpacesKeepsClean | assets/js/main.js:222 | a value without whitespace is left unchanged |
| Text.StripSpacesEmptyIffAllSpace | assets/js/main.js:222 | stripping leaves nothing exactly when the value is all whitespace |
| Text.StripSpacesIdempotent | assets/js/main.js:222 | stripping twice equals stripping once |
| Patterns.EmailRegexSound | assets/js/main.js:212 | every string `/^[^\s@]+@[^\s@]+\.[^\s@]+$/` accepts has no whitespace, exactly one `@` with something before it, and a `.` strictly inside the part after it |
| Patterns.EmailRegexComplete | assets/js/main.js:212 | every string with those properties is accepted by the email pattern |
| Patterns.EmailRegexIff | assets/js/main.js:212-213 | the email pattern and its characterisation accept the same strings |
| Patterns.PhoneRegexIff | assets/js/main.js:221-222 | `/^[\+]?[1-9][\d]{0,15}$/` accepts exactly an optional `+` followed by 1 to 16 digits, the first of which is not `0` |
| FormValidation.ClearFieldError | assets/js/main.js:248-254 | the border is reset to `''`; the first error message, if any, is removed and the rest are kept |
| FormValidation.ShowFieldError | assets/js/main.js:232-246 | clears first, then appends the given message and sets the border to `#ff4757`; from at most one message, exactly that message remains |
| FormValidation.LastFailure | assets/js/main.js:203-225 | a required control has no failing check exactly when it is non-blank and passes the email and phone checks that apply to its type |
| FormValidation.ValidateFieldOutcome | assets/js/main.js:202-226 | from a slot with at most one message, a checked control ends with exactly the message of the last failing check and the red border, or with no message and a cleared border |
| FormValidation.CheckRequiredField | assets/js/main.js:202-226 | the per-control callback reports failure exactly when a check fails, and leaves the slot as `ValidateField` describes |
| FormValidation.ValidateNext | assets/js/main.js:202-227 | one turn of the `forEach` callback extends the verdict and the updated slots by the next control and leaves the later slots untouched |
| FormValidation.ValidateAllAt | assets/js/main.js:202-227 | each control's slot is affected only by its own checks, and only when the control is required |
| FormValidation.AllRequiredPassIff | assets/js/main.js:200-229 | folding `isValid` over the controls gives exactly "every required control passes" |
| FormValidation.ValidateForm | assets/js/main.js:198-230 | returns true exactly when every required control passes; the error slots, updated in place, end as the fold of the per-control checks |
| FormValidation.OptionalFieldIrrelevant | assets/js/main.js:199 | changing a control without `required` never changes the verdict |
| FormValidation.InvalidIffSomeRequiredFails | assets/js/main.js:198-230 | the form is invalid exactly when some required control fails a check |
| FormValidation.WhitespaceEmailShowsEmailMessage | assets/js/main.js:203-216 | a required email control holding only whitespace ends with the email message alone, not the required-field message; browsers strip ASCII whitespace from `type=email` values, so this arises with other whitespace such as U+00A0 |
| FormValidation.WhitespacePhoneShowsPhoneMessage | assets/js/main.js:203-225 | a required phone control holding only whitespace ends with the phone message alone |
| FormValidation.ValidationKeepsOneMessage | assets/js/main.js:232-254 | starting from at most one message per control, validation never stacks a second message under any control |
| Timers.ThrottleStep | assets/js/main.js:403-411 | after one event the flag is set exactly when the event is a call; `func` runs, with that call's arguments, exactly when a call finds the flag clear; the log only grows |
| Timers.ThrottleWindow | assets/js/main.js:401-412 | between two timer firings, at most one call reaches `func`: the first call, and only if the flag was clear; the flag is then set |
| Timers.ThrottleQuiet | assets/js/animations.js:166-177 | while the flag is set and no timer fires, every call is dropped; this holds for `AnimationController.throttle`, which is identical to the `throttle` of main.js |
| Timers.ThrottleRunsBounded | assets/js/main.js:401-412 | over any trace, `func` runs at most once per timer firing, plus once if the flag starts clear; earlier runs are never undone |
| Timers.Throttle.constructor | assets/js/main.js:402 | the flag starts clear and nothing has run |
| Timers.Throttle.Call | assets/js/main.js:403-411 | runs `func` with the call's arguments exactly when the flag was clear; the flag is set afterwards |
| Timers.Throttle.TimerExpired | assets/js/main.js:410 | the timer clears the flag and runs nothing |
| Timers.DebounceStep | assets/js/main.js:416-423 | after one event a timer is pending exactly when the event is a call, carrying its arguments; `func` runs exactly when a pending timer fires, with that timer's arguments; the log only grows |
| Timers.DebounceBurst | assets/js/main.js:414-424 | a burst of calls runs nothing and leaves one pending timer, carrying the arguments of the last call |
| Timers.DebounceRunsLatestOnce | assets/js/main.js:416-422 | after a burst, the timer runs `func` exactly once, with the most recent arguments; a further firing does nothing |
| Timers.DebounceRunsBounded | assets/js/main.js:414-424 | over any trace, `func` runs at most once per timer firing; earlier runs are never undone |
| Timers.Debounce.constructor | assets/js/main.js:415 | no timer is pending and nothing has run |
| Timers.Debounce.Call | assets/js/main.js:416-423 | the previous timer is cancelled; one timer is pending, carrying these arguments |
| Timers.Debounce.TimerExpired | assets/js/main.js:417-420 | the pending timer, if any, runs `func` with its arguments and is gone |
| Dom.Utf16Char | assets/js/animations.js:197-198 | a character is one UTF-16 code unit, its own value, inside the Basic Multilingual Plane, and a high and a low surrogate above it |
| Dom.Utf16 | assets/js/animations.js:197 | a string's `length` is between its number of characters and twice that |
| Dom.Utf16LengthInBmp | assets/js/animations.js:197 | without characters above the Basic Multilingual Plane, `length` is the number of characters |
| Dom.Toggled | assets/js/main.js:58-59 | `classList.toggle(c)`: `c` is present afterwards exactly when it was absent, and no other class changes |
| Dom.ToggledTwice | assets/js/main.js:58-59 | toggling a class twice restores the class list |
| MobileMenu.MenuStep | assets/js/main.js:57-67 | a toggle click flips `active` on both elements, a link click removes it from both, and either keeps two agreeing elements in agreement |
| MobileMenu.RunKeepsInSync | assets/js/main.js:57-67 | if the navigation and the button agree on `active`, they agree after any sequence of clicks |
| MobileMenu.TogglesFlipByParity | assets/js/main.js:57-60 | under toggle clicks alone, each element's `active` ends flipped exactly when the number of clicks is odd |
| MobileMenu.LinkClickCloses | assets/js/main.js:62-67 | whatever came before, a link click as the latest click leaves both elements without `active` |
| MobileMenu.Menu.OnToggleClick | assets/js/main.js:57-60 | flips `active` on both elements and changes no other class, text or style; if both selectors name the same element, its classes do not change |
| MobileMenu.Menu.OnLinkClick | assets/js/main.js:62-67 | removes `active` from both elements and changes no other class, text or style |
| ScrollRules.HeaderClasses | assets/js/main.js:262-266 | the header has `scrolled` exactly when the offset exceeds 100, and no other class changes |
| ScrollRules.ButtonStyle | assets/js/main.js:480-486 | the button's opacity is `'1'` and its visibility `'visible'` exactly when the offset exceeds 300, and otherwise `'0'` and `'hidden'`; other style properties are kept |
| ScrollRules.ButtonImpliesScrolledHeader | assets/js/main.js:262-266 | when both rules run at the same offset and the scroll-to-top button is visible, the header is scrolled |
| ScrollRules.ButtonCanOutrunHeader | assets/js/main.js:479-487 | the button's listener is not throttled, so scroll events at 50 and then 350 pixels within one throttle window show the button while the header stays unscrolled |
| ScrollRules.HeaderMonotone | assets/js/main.js:262 | scrolling further down never removes `scrolled` |
| ScrollRules.HeaderIdempotent | assets/js/main.js:262-266 | running the header rule twice at the same offset is the same as running it once |
| ScrollRules.HeaderFollowsLastRun | assets/js/main.js:262-266 | after several runs of the rule, only the last offset that reached it decides `scrolled` |
| ScrollRules.ThrottledHeaderCanLag | assets/js/main.js:28 | because `handleScroll` is throttled without a trailing call, scroll events at 150 and then 50 pixels within one window leave the header `scrolled` |
| ScrollRules.HandleScroll | assets/js/main.js:257-266 | `handleScroll` sets the header's classes as `HeaderClasses` says, and leaves its text and style alone |
| ScrollRules.ShowScrollTopButton | assets/js/main.js:479-487 | the scroll listener sets the button's style as `ButtonStyle` says, and leaves its classes and text alone |
| Animations.RevealClasses | assets/js/animations.js:40-42 | an element has `revealed` afterwards exactly when it had `revealed` or `scroll-reveal` before; no class is lost and no other class is added |
| Animations.RevealIdempotent | assets/js/animations.js:40-42 | an element observed twice ends as after the first time |
| Animations.AnimateElement | assets/js/animations.js:38-42 | `animateElement` applies the reveal rule to the element's classes; for an element that is neither a grid child nor a counter, it leaves the text and style alone |
| Animations.Typed | assets/js/animations.js:194-204 | after `n` firings, the element shows a prefix of the text of `min(n, text.length)` UTF-16 code units |
| Animations.TypedStep | assets/js/animations.js:197-199 | each firing before the end adds exactly the next code unit |
| Animations.AstralCharTakesTwoFirings | assets/js/animations.js:197-198 | a character above the Basic Multilingual Plane is two code units, so it takes two firings, and after the first the element holds a lone high surrogate |
| Animations.TypingAnimation.constructor | assets/js/animations.js:182-192 | the element is emptied; the interval starts at `i = 0`, running |
| Animations.TypingAnimation.Tick | assets/js/animations.js:196-203 | before the end, appends the code unit `text.charAt(i)` to the element and advances `i`; at the end, clears the interval and changes nothing; the typing invariant is kept |
| Animations.TypingAnimation.Elapse | assets/js/animations.js:194-204 | after `n` firings from the start, the element shows `Typed(text, n)`, and the interval has been cleared exactly when `n` exceeds the text's length in code units |

## Left out

- The DOM itself is reduced to class sets, text and a style map. Queries, element creation, event registration and `IntersectionObserver` are not modelled.
- Form submission, notifications, smooth scrolling, the preloader, the progress bar in `handleScroll`, counters, parallax, particles, hover effects and the other features of the two scripts are not modelled.
- Real time is not modelled. The `limit`, `wait` and `speed` delays only order the timer events, and a timer firing is an explicit event. The default `speed` of 100 is kept as a plain parameter.
- Timers.Throttle: the `this` context passed through `func.apply` is not modelled. Neither is a `func` that re-enters the wrapper.
- FormValidation.ClearFieldError: the source looks for the first `.field-error` in the control's parent. This model gives each control its own error slot, which assumes no two validated controls share a parent.
- Text.Trim, Patterns.EmailRegexIff and Patterns.PhoneRegexIff work on Unicode characters, not UTF-16 code units. They therefore say nothing about form values with unpaired surrogates. Element text and `TypingAnimation` use UTF-16 code units.
- Timers.Throttle.Call: the source runs `func` before it sets the flag. A `func` that throws therefore leaves the flag clear, and the next call runs `func` again. `handleScroll` throws this way on a page without a `.header`. Exceptions are not modelled.
- ScrollRules.ButtonImpliesScrolledHeader holds only when both rules see the same offset. The button's listener runs on every scroll event and `handleScroll` is throttled, so the button can show while the header is unscrolled. ScrollRules.ButtonCanOutrunHeader gives such a trace.
- Animations.AnimateElement: only the reveal rule is modelled. The stagger delay for grid children (a style change) and the counter start (a text change) are left out, so the unchanged text and style it states hold only for elements that are neither.
- Animations.TypingAnimation.Tick: the typing invariant assumes nothing else writes to the element while the interval runs. The source appends to whatever the element then holds, and `Tick` states that append for every state.
