# Login flow and hex colours of the swfitapp demo, modelled in Dafny

The app's login screen exists in two copies. One is the `LoginViewModel` used by the
feature view `Features/Login/Views/LoginView.swift`. The other is an older screen,
`LoginView.swift`, that keeps the same controller inline as `@State` fields and private
functions. Both drive the same eight fields:

- phone number and verification code;
- countdown and the counting flag;
- loading and agreement flags;
- alert message and alert visibility.

This project models that controller as one immutable `State` with pure transitions:

- Text-field bindings keep only digits and cut the text to 11 (phone) or 6 (code) characters.
- The phone validator implements `^1[3-9]\d{9}$`. The code validator checks the length only.
- The one-shot 60-second countdown runs on a repeating timer.
- Two simulated requests, "send code" and "login", schedule delayed completions. These raise the alerts "验证码已发送" and "登录成功".
- `LoginError` maps each error to its message.

It also models the integer part of `Color(hex:)` in `ContentView.swift`:

- trimming non-alphanumerics from both ends;
- reading its leading hex digits as a number, after an optional `0x`;
- splitting that number into alpha, red, green and blue for 3-, 6- and 8-digit input, with the `(1, 1, 1, 0)` fallback for every other length.

Time becomes events:

- The repeating timer is a `TimerTick` event. It has an effect only while a timer is scheduled.
- Each `Task.sleep` or `asyncAfter` continuation is an entry in a multiset of pending completions. A `Fire` event runs one of them, in any order.
- Code that a `Task` runs before its first suspension happens at the call. This is `startCountdown()` in `sendVerificationCode` and `isLoading = true` in `login`.
- The state also records every alert raised so far (`raised`). This log exists only in the model. It lets contracts say "exactly one alert, and which one".

Modules:

- `InputFilter`: the digit filter and prefix used by the bindings.
- `LoginModels`: the login request and the error enum.
- `PhoneRule`: the phone pattern.
- `LoginState`: the state, the events, the invariant, and the bindings and buttons the two screens share.
- `LoginViewModel` and `LoginScreen`: the view-model and the feature view on top of it.
- `InlineLoginView`: the inline copy.
- `CrossCheck`: proves the two copies equal for every state and every sequence of the events both screens share. Teardown is not one of them: only the inline screen stops its countdown on disappearing (`InlineLoginView.Disappear`).
- `HexColor`: the colour parser.

Digits are ASCII `0`–`9`, both for `Character.isNumber` and for the regex `\d`. Alphanumerics
for the hex trim are ASCII letters and digits. String length is the number of characters.

The countdown starts at 60 and decrements on each of the next 60 firings. The 61st firing
(countdown at 0) stops it and resets it to 60. So the "get code" button becomes enabled again
after 61 firings, not 60. The model follows the code here (`CountdownLifecycle`).

## Model

| member | source | states |
|---|---|---|
| `LoginModels.LoginError.Message` | swfitapp/Features/Login/Models/LoginModels.swift:13-21 | every error has a non-empty message |
| `LoginModels.MessageInjective` | swfitapp/Features/Login/Models/LoginModels.swift:8-21 | two errors have the same message exactly when they are the same error, so each alert identifies its error |
| `LoginModels.ErrorCasesExhaustive` | swfitapp/Features/Login/Models/LoginModels.swift:8-11 | the error enum has exactly the three cases invalid phone, invalid code and network error |
| `InputFilter.KeepDigits` | swfitapp/Features/Login/Views/LoginView.swift:38 | the filtered text consists of digits only and is no longer than the input |
| `InputFilter.KeepDigitsCounts` | swfitapp/Features/Login/Views/LoginView.swift:38 | the filter keeps every digit as often as it occurs in the input and drops every other character |
| `InputFilter.KeepDigitsAppend` | swfitapp/Features/Login/Views/LoginView.swift:38 | filtering a concatenation is concatenating the filtered parts, so digit order is kept |
| `InputFilter.KeepDigitsOfDigits` | swfitapp/Features/Login/Views/LoginView.swift:38 | text that is already all digits passes the filter unchanged |
| `InputFilter.Prefix` | swfitapp/Features/Login/Views/LoginView.swift:39 | `prefix(n)` is a prefix of the text, of length n or the whole text when it is shorter |
| `InputFilter.Sanitize` | swfitapp/Features/Login/Views/LoginView.swift:38-39 | the stored text is all digits, at most the limit long, a prefix of the input's digits, exactly as long as the limit allows, and the whole digit string when it fits |
| `InputFilter.SanitizeKeepsCleanText` | swfitapp/Features/Login/Views/LoginView.swift:38-39 | a field value that is already clean is stored as typed |
| `InputFilter.SanitizeIdempotent` | swfitapp/Features/Login/Views/LoginView.swift:38-39 | feeding a stored value back through the binding does not change it |
| `InputFilter.SanitizeDigits` | swfitapp/Features/Login/Views/LoginView.swift:38-39 | on digit-only input the binding is just the prefix of the limit's length |
| `InputFilter.PhoneField` | swfitapp/Features/Login/Views/LoginView.swift:35-41 | the phone field holds at most 11 digits, taken from the front of the typed digits |
| `InputFilter.CodeField` | swfitapp/Features/Login/Views/LoginView.swift:63-69 | the code field holds at most 6 digits, taken from the front of the typed digits |
| `InputFilter.PhoneFieldExample` | swfitapp/Features/Login/Views/LoginView.swift:35-41 | typing "8613521032797" stores "86135210327" |
| `InputFilter.CodeFieldExample` | swfitapp/Features/Login/Views/LoginView.swift:63-69 | typing "12a34" stores "1234" |
| `PhoneRule.Matches` | swfitapp/Features/Login/ViewModels/LoginViewModel.swift:27-29 | a text matches an anchored fixed-width pattern exactly when the lengths agree and every character is in its position's class |
| `PhoneRule.IsValidPhone` | swfitapp/Features/Login/ViewModels/LoginViewModel.swift:27-29 | a phone is valid exactly when it has 11 characters, starts with 1, has 3–9 second and digits after that |
| `PhoneRule.ValidPhoneIsFieldValue` | swfitapp/Features/Login/ViewModels/LoginViewModel.swift:27-29 | every valid phone is a value the phone field can hold, and it is stored unchanged when typed |
| `PhoneRule.PhoneExamples` | swfitapp/Features/Login/ViewModels/LoginViewModel.swift:27-29 | "13521032797" is valid; a wrong second digit, ten digits or twelve digits are not |
| `LoginState.InitialInv` | swfitapp/Features/Login/ViewModels/LoginViewModel.swift:6-13 | the declared initial values satisfy the invariant and the countdown is idle |
| `LoginState.AlertKeepsInv` | swfitapp/Features/Login/ViewModels/LoginViewModel.swift:101-104 | raising any message the controller can raise keeps the invariant |
| `LoginState.EditPhoneNumber` | swfitapp/Features/Login/Views/LoginView.swift:35-41 | the phone binding stores the sanitised text and touches no other field |
| `LoginState.EditVerificationCode` | swfitapp/Features/Login/Views/LoginView.swift:63-69 | the code binding stores the sanitised text and touches no other field |
| `LoginState.ClearPhoneNumber` | swfitapp/Features/Login/Views/LoginView.swift:44-53 | the clear button empties the phone and nothing else |
| `LoginState.ClearVerificationCode` | swfitapp/Features/Login/Views/LoginView.swift:72-81 | the clear button empties the code and nothing else |
| `LoginState.ToggleAgreed` | swfitapp/Features/Login/Views/LoginView.swift:127-131 | the check box flips the agreement and nothing else |
| `LoginState.Dismiss` | swfitapp/Features/Login/Views/LoginView.swift:164-168 | confirming the alert hides it and keeps everything else, its message included |
| `LoginState.BindingsKeepInv` | swfitapp/Features/Login/Views/LoginView.swift:35-131 | no binding, clear button, check box or alert dismissal can break the invariant |
| `LoginViewModel.ShowError` | swfitapp/Features/Login/ViewModels/LoginViewModel.swift:101-104 | an error shows its own message as the one new alert and changes nothing else |
| `LoginViewModel.ValidatePhoneNumber` | swfitapp/Features/Login/ViewModels/LoginViewModel.swift:26-36 | the verdict is true exactly for a valid phone; valid leaves the state alone, invalid shows the invalid-phone message as the one new alert and changes nothing else |
| `LoginViewModel.ValidateVerificationCode` | swfitapp/Features/Login/ViewModels/LoginViewModel.swift:38-46 | the verdict is true exactly for a 6-character code; invalid shows the invalid-code message as the one new alert and changes nothing else |
| `LoginViewModel.StartCountdown` | swfitapp/Features/Login/ViewModels/LoginViewModel.swift:48-63 | counting starts at 60 with a timer scheduled, and only countdown fields change |
| `LoginViewModel.StopCountdown` | swfitapp/Features/Login/ViewModels/LoginViewModel.swift:65-70 | afterwards there is no timer and the countdown rests at 60, and only countdown fields change |
| `LoginViewModel.Tick` | swfitapp/Features/Login/ViewModels/LoginViewModel.swift:52-62 | a firing takes one off a positive countdown or stops it; without a timer nothing happens; the countdown invariant is kept |
| `LoginViewModel.SendVerificationCode` | swfitapp/Features/Login/ViewModels/LoginViewModel.swift:72-82 | an invalid phone only shows the invalid-phone message as the one new alert; a valid one starts the countdown and schedules one "code sent" completion, with no alert yet |
| `LoginViewModel.Login` | swfitapp/Features/Login/ViewModels/LoginViewModel.swift:84-98 | the phone is checked before the code and the first failure shows its message as the one new alert, with no request and nothing else changed; when both pass, the request carries the current phone and code, loading is on, and one login completion is scheduled |
| `LoginViewModel.Complete` | swfitapp/Features/Login/ViewModels/LoginViewModel.swift:78-97 | a completion runs once, raises exactly its own alert, and the login completion turns loading off |
| `LoginViewModel.TicksCountDown` | swfitapp/Features/Login/ViewModels/LoginViewModel.swift:52-62 | while the countdown is positive, n firings take exactly n off it |
| `LoginViewModel.TicksAppend` | swfitapp/Features/Login/ViewModels/LoginViewModel.swift:52-62 | m firings then n firings are m + n firings |
| `LoginViewModel.CountdownLifecycle` | swfitapp/Features/Login/ViewModels/LoginViewModel.swift:48-70 | after k ≤ 60 firings from a start, counting shows 60 − k and requests stay disabled; the 61st firing stops the countdown, and requests are enabled again exactly when a phone is entered |
| `LoginViewModel.StopCountdownIdempotent` | swfitapp/Features/Login/ViewModels/LoginViewModel.swift:65-70 | stopping an idle countdown changes nothing |
| `LoginScreen.RequestCodeGate` | swfitapp/Features/Login/Views/LoginView.swift:83-93 | the "get code" button requests a code exactly while the view-model allows it, and otherwise does nothing |
| `LoginScreen.LoginTapOutcome` | swfitapp/Features/Login/Views/LoginView.swift:100-122 | a login tap does nothing while disabled, else shows the first failed check's message as the one new alert and schedules nothing, else turns loading on and schedules one login completion without an alert |
| `LoginScreen.CompleteKeepsInv` | swfitapp/Features/Login/ViewModels/LoginViewModel.swift:76-98 | running a pending completion keeps the invariant |
| `LoginScreen.SendKeepsInv` | swfitapp/Features/Login/ViewModels/LoginViewModel.swift:72-82 | requesting a code keeps the invariant |
| `LoginScreen.LoginKeepsInv` | swfitapp/Features/Login/ViewModels/LoginViewModel.swift:84-98 | logging in while not loading keeps the invariant |
| `LoginScreen.StepKeepsInv` | swfitapp/Features/Login/Views/LoginView.swift:35-168 | every event on the feature screen keeps the invariant: digits-only bounded fields, a countdown in 0..60 with a timer exactly while counting, loading exactly while one login is outstanding, and the alert showing the latest raised message |
| `LoginScreen.RunKeepsInv` | swfitapp/Features/Login/Views/LoginView.swift:35-168 | every state the feature screen reaches satisfies the invariant |
| `LoginScreen.LoginCompletionFiresOnce` | swfitapp/Features/Login/ViewModels/LoginViewModel.swift:91-98 | the login completion turns loading off, raises "登录成功", and cannot fire a second time |
| `LoginScreen.OnlyTapsSchedule` | swfitapp/Features/Login/Views/LoginView.swift:35-168 | only the two buttons can schedule completions: every other event leaves a sub-multiset of the pending completions |
| `LoginScreen.RunAppendOne` | swfitapp/Features/Login/Views/LoginView.swift:35-168 | running events and then one more is stepping the state reached |
| `LoginScreen.FilledForm` | swfitapp/Features/Login/Views/LoginView.swift:35-131 | typing a clean phone and code and ticking the box fills exactly those three fields |
| `LoginScreen.SuccessfulLogin` | swfitapp/Features/Login/ViewModels/LoginViewModel.swift:84-98 | for any valid phone and six-digit code, logging in loads with one completion pending; when it fires, loading is off and "登录成功" is the only alert ever raised |
| `LoginScreen.EndToEndLogin` | swfitapp/Features/Login/ViewModels/LoginViewModel.swift:84-98 | the same run with "13521032797" and "000000" |
| `InlineLoginView.ValidatePhoneNumber` | swfitapp/LoginView.swift:203-214 | the inline phone check accepts exactly valid phones and otherwise shows "请输入正确的手机号码" as the one new alert and changes nothing else |
| `InlineLoginView.ValidateVerificationCode` | swfitapp/LoginView.swift:216-225 | the inline code check accepts exactly 6-character codes and otherwise shows "请输入6位验证码" as the one new alert and changes nothing else |
| `InlineLoginView.StartCountdown` | swfitapp/LoginView.swift:239-250 | counting starts at 60 with a timer, and only countdown fields change |
| `InlineLoginView.StopCountdown` | swfitapp/LoginView.swift:252-257 | the timer is gone and the countdown rests at 60 |
| `InlineLoginView.Tick` | swfitapp/LoginView.swift:243-249 | a firing takes one off or stops the countdown; an invalidated timer does nothing |
| `InlineLoginView.SendVerificationCode` | swfitapp/LoginView.swift:259-265 | the inline request validates nothing and only schedules the "code sent" completion |
| `InlineLoginView.Login` | swfitapp/LoginView.swift:267-278 | the inline login validates nothing, turns loading on and schedules the login completion |
| `InlineLoginView.RequestCodeTapped` | swfitapp/LoginView.swift:91-97 | the button checks the phone itself: invalid only shows "请输入正确的手机号码" as the one new alert, valid starts counting at 60 and schedules "code sent" with no alert |
| `InlineLoginView.ValidateAndLogin` | swfitapp/LoginView.swift:227-237 | the phone is checked before the code, each failure shows its own message as the one new alert and changes nothing else, and when both pass loading turns on and one login completion is scheduled with no alert |
| `InlineLoginView.Complete` | swfitapp/LoginView.swift:261-277 | a delayed closure runs once and raises exactly its own alert; the login closure turns loading off |
| `InlineLoginView.Disappear` | swfitapp/LoginView.swift:194-196 | leaving the screen stops the countdown and changes nothing else |
| `InlineLoginView.TeardownLeavesNoTimer` | swfitapp/LoginView.swift:194-196 | after leaving the screen no timer remains and further firings change nothing |
| `CrossCheck.MessagesAgree` | swfitapp/LoginView.swift:209-276 | the inline alert literals are exactly the `LoginError` messages and the view-model's completion messages |
| `CrossCheck.GatesAgree` | swfitapp/LoginView.swift:106-135 | the inline "get code" button (line 106) and login button (line 135) are disabled exactly when the view-model's `canRequestCode` / `canLogin` (LoginViewModel.swift lines 18-24) is false |
| `CrossCheck.ValidatorsAgree` | swfitapp/LoginView.swift:203-225 | the two copies' validators give the same verdict and the same state |
| `CrossCheck.RequestCodeAgrees` | swfitapp/LoginView.swift:91-97 | checking the phone in the button then starting and sending equals the view-model's send with validation inside |
| `CrossCheck.LoginAgrees` | swfitapp/LoginView.swift:227-237 | the inline validate-and-login equals the view-model's login |
| `CrossCheck.CountdownAgrees` | swfitapp/LoginView.swift:239-257 | start, stop and tick of the two copies coincide |
| `CrossCheck.CompletionsAgree` | swfitapp/LoginView.swift:259-278 | the delayed closures of the two copies coincide |
| `CrossCheck.StepsAgree` | swfitapp/LoginView.swift:43-181 | for every state and every event both screens share, the inline screen and the view-model screen move to the same state |
| `CrossCheck.RunsAgree` | swfitapp/LoginView.swift:43-181 | for every sequence of shared events, both screens reach the same state |
| `CrossCheck.InlineRunKeepsInv` | swfitapp/LoginView.swift:43-196 | every state the inline screen reaches satisfies the invariant |
| `CrossCheck.DisappearKeepsInv` | swfitapp/LoginView.swift:194-196 | leaving the inline screen keeps the invariant |
| `HexColor.SkipLeading` | swfitapp/ContentView.swift:289 | the trim start is the first alphanumeric at or after the given index, or the end |
| `HexColor.SkipTrailing` | swfitapp/ContentView.swift:289 | the trim end is just after the last alphanumeric before the given index, or the start |
| `HexColor.Trim` | swfitapp/ContentView.swift:289 | the trimmed text is the slice between the first and the last alphanumeric character, with none outside it |
| `HexColor.TrimmedAtUnique` | swfitapp/ContentView.swift:289 | the trimmed slice is uniquely determined by the text |
| `HexColor.TrimKeepsCleanText` | swfitapp/ContentView.swift:289 | text that starts and ends with an alphanumeric is not trimmed |
| `HexColor.TrimIdempotent` | swfitapp/ContentView.swift:289 | trimming twice is trimming once |
| `HexColor.TrimHashPrefix` | swfitapp/ContentView.swift:289 | a leading "#" before hex digits is removed |
| `HexColor.HexDigitValue` | swfitapp/ContentView.swift:291 | each hex digit is worth less than 16 |
| `HexColor.ParseHex` | swfitapp/ContentView.swift:290-291 | n hex digits scan to a number below 16^n |
| `HexColor.ParseHexAppend` | swfitapp/ContentView.swift:290-291 | scanning a concatenation shifts the first part's value by the second part's digit count, so the scanner is positional |
| `HexColor.ParseHexSnoc` | swfitapp/ContentView.swift:290-291 | one more digit multiplies the value by 16 and adds the digit |
| `HexColor.ParseHexPair` | swfitapp/ContentView.swift:290-291 | two hex digits are one byte, high digit first |
| `HexColor.ParseHexLastPair` | swfitapp/ContentView.swift:290-291 | the last two digits are the low byte and the rest is the value above it |
| `HexColor.HexRun` | swfitapp/ContentView.swift:291 | the scanner's digit run is all hex digits and stops at the first other character or the end |
| `HexColor.ScanHex` | swfitapp/ContentView.swift:290-291 | the scanned value of n characters is below 16^n, so 8 characters never overflow 64 bits |
| `HexColor.HexRunStops` | swfitapp/ContentView.swift:291 | the digit run of hex digits followed by a non-hex character is exactly those digits |
| `HexColor.ScanLeadingDigits` | swfitapp/ContentView.swift:290-291 | without a "0x" marker the scanned value is the value of the leading hex digits, whatever follows them |
| `HexColor.ScanAfterMarker` | swfitapp/ContentView.swift:290-291 | after "0x" or "0X" the scanned value is the value of the hex digits that follow the marker |
| `HexColor.ScanAllHex` | swfitapp/ContentView.swift:290-291 | a string of hex digits scans to its full value |
| `HexColor.Channels` | swfitapp/ContentView.swift:293-302 | for 3, 6 or 8 digits, every channel is in 0..255 |
| `HexColor.NibbleChannels` | swfitapp/ContentView.swift:294-295 | a 3-digit value gives opaque alpha and each nibble times 17 |
| `HexColor.ByteChannels24` | swfitapp/ContentView.swift:296-297 | a 6-digit value gives opaque alpha and its three bytes, high first |
| `HexColor.ByteChannels32` | swfitapp/ContentView.swift:298-299 | an 8-digit value gives its four bytes as alpha, red, green, blue |
| `HexColor.ShortFormChannels` | swfitapp/ContentView.swift:294-295 | "rgb" gives each digit doubled ("rrggbb") with opaque alpha |
| `HexColor.RgbChannels` | swfitapp/ContentView.swift:296-297 | "rrggbb" gives red, green and blue as its digit pairs with opaque alpha, and they recombine to the scanned value |
| `HexColor.ArgbChannels` | swfitapp/ContentView.swift:298-299 | "aarrggbb" gives alpha, red, green and blue as its digit pairs |
| `HexColor.ColorFromHex` | swfitapp/ContentView.swift:288-302 | for every input every channel is in 0..255, any trimmed length other than 3, 6 or 8 gives the (1, 1, 1, 0) fallback, and 3 or 6 characters are always opaque |
| `HexColor.HexDigitsColor` | swfitapp/ContentView.swift:288-302 | 3, 6 or 8 hex digits, with or without a leading "#", give the channels of their value |
| `HexColor.NoDigitsIsBlack` | swfitapp/ContentView.swift:288-302 | "zzzzzz" scans no digit, keeps 0 and gives opaque black |
| `HexColor.MarkerCountsInLength` | swfitapp/ContentView.swift:288-302 | "0x1" counts as three characters but scans to 1, giving (255, 0, 0, 17) |
| `HexColor.RoyalBlueChannels` | swfitapp/ContentView.swift:296-297 | "4169E1" splits into 65, 105 and 225 |
| `HexColor.RoyalBlue` | swfitapp/ContentView.swift:288-302 | "4169E1" and "#4169E1" both give the opaque colour (255, 65, 105, 225) |

## Left out

- Real time is not modelled. The one-second timer period and the one- and two-second delays are not modelled. Completions may fire in any order and at any point after they are scheduled.
- The `Task` hop inside the view-model's timer closure is treated as immediate. A tick queued before `stopCountdown` and run after it is not modelled.
- Code that a `Task` runs before its first suspension is applied at the call. The brief window before the `Task` starts, when `isLoading` is still false, is not modelled.
- The view-model's `deinit` and its `[weak self]` capture are not modelled. Neither is `cancellables`, which is never used.
- Pending completions are not cancelled when the inline screen disappears. The source does not cancel them either. The feature view has no `onDisappear`, so its countdown keeps running.
- `print` of the request, `hideKeyboard`, `withAnimation`, and layout and styling of the views are not modelled. They change no controller state.
- The user-agreement and privacy alerts are not modelled. They are separate flags, each showing a fixed text.
- `InputFilter.KeepDigits`: `Character.isNumber` is modelled as ASCII `0`–`9`. Other Unicode numeric characters (full-width digits, "½", Chinese numerals) are not modelled, and `\d` in the phone regex is modelled as ASCII as well.
- `HexColor.Trim`: `CharacterSet.alphanumerics` is modelled as ASCII letters and digits. Non-ASCII letters and digits are not modelled, and `count` is taken to be the character count rather than the grapheme count.
- `HexColor.ScanHex`: `Scanner` skips leading whitespace and reports overflow. Neither is modelled. The trimmed text never starts with whitespace. Its 3, 6 or 8 characters stay far below 2^64.
- The conversion of the channels to `Double` and to an sRGB `Color` is not modelled.
- `LoginError.networkError` is never raised by the controller. Its message is modelled, but no path raises it.
