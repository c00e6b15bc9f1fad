# ShowTime booking flow, modelled in Dafny

ShowTime is an Android movie-ticket app written with Jetpack Compose and Firebase.
Almost all of it is UI. The logic that can be stated and checked sits inside four
screens, and this project lifts it out into plain Dafny:

- **Seat selection** (`SeatSelectionScreen`). A fixed 5 × 6 grid names each seat by a
  row letter and a 1-based column ("A1" to "E6"). A click toggles a seat in the list of
  selected seats. The list holds at most three seats. A refused click leaves it unchanged
  and raises the "Max 3 seats allowed!" notice. The list keeps click order. "Book Tickets"
  appears only when the list is non-empty, and it passes the list to payment in that order.
- **Payment** (`PaymentScreen`). The total is 200 per seat. There are four whole-field
  checks: card number, card holder, expiry `MM/YY` and CVV. While the user types, three
  fields keep only their first 16, 5 or 3 characters. "Pay" builds the booking record
  (movie, showtime, seats, total, timestamp) only when all four checks pass.
- **Login and sign-up** (`LoginScreen`, `SignupScreen`). These check the e-mail against
  the pattern `^[A-Za-z0-9+_.-]+@[A-Za-z0-9.-]+$`. The password needs six or more
  characters. On sign-up the confirmation must equal the password and the user name must
  be non-empty. A field shows its error text only when it is non-empty and fails its
  check. The submit button is enabled only for a valid form while nothing is loading.

Modules, one per source file or shared concern:

- `Wrappers`: `Option`, used for intent extras that may be missing.
- `Text`: the ASCII character classes, decimal rendering with its inverse, `take`, and
  counting.
- `Pattern`: the part of `java.util.regex` the validators use, with a declarative
  whole-string `Matches`.
- `Seats`: the grid, the pure toggle function `ToggleSeat`, and the `SeatSelection` class
  whose `Toggle` method changes the list in place.
- `Payment`: the price, the validators, and the `PaymentForm` class with its editing and
  `Pay` handlers.
- `Credentials`: the e-mail and password checks that both auth screens share.
- `Login` and `Signup`: the two form classes and their button handlers.

The screens' mutable Compose state becomes class fields. Each handler that changes screen
state becomes a method with a `modifies` clause. The Pay and Book Tickets handlers only build
a record, so they become a method without one (`Pay`) and a function (`BookTickets`). Each
field check is a predicate on the field's text, and each form-level `val` is a predicate
that `reads this`.

The e-mail and expiry checks are modelled as the source writes them: a regular expression
and a matcher. Lemmas then prove what each pattern means. `Credentials.EmailPatternMeaning`
shows the e-mail pattern matches exactly an '@' with a non-empty run of local characters
before it and domain characters after it. `Payment.ExpiryPatternMeaning` shows the expiry
pattern matches exactly a month "01".."12", a '/', and two digits.

## Model

| member | source | states |
|---|---|---|
| `Text.Take` | app/src/main/java/com/example/showtime/PaymentActivity.kt:106 | `take(n)` gives a prefix of the input of at most n characters: the whole input when it is no longer, otherwise exactly n characters |
| `Seats.ShowingFromExtras` | app/src/main/java/com/example/showtime/SeatActivity.kt:27-28 | a missing title becomes "Movie" and a missing showtime "Showtime"; a present one is kept |
| `Seats.SeatId` | app/src/main/java/com/example/showtime/SeatActivity.kt:78 | a seat id is the row letter ('A' + row - 1) followed by the decimal digits of the column |
| `Text.Decimal` | app/src/main/java/com/example/showtime/SeatActivity.kt:78 | the rendering of a column number is non-empty, all digits, one digit below ten, and has no leading zero |
| `Text.DecimalRoundTrip` | app/src/main/java/com/example/showtime/SeatActivity.kt:78 | reading the decimal rendering back gives the number |
| `Seats.SeatIdInjective` | app/src/main/java/com/example/showtime/SeatActivity.kt:78 | two seats with the same id are in the same row and column |
| `Seats.Grid` | app/src/main/java/com/example/showtime/SeatActivity.kt:72-78 | the grid holds rows × columns = 30 seat ids, row by row |
| `Seats.GridAt` | app/src/main/java/com/example/showtime/SeatActivity.kt:72-78 | the grid's entry at row-major position (row-1)*6 + (col-1) is that seat's id |
| `Seats.GridDistinct` | app/src/main/java/com/example/showtime/SeatActivity.kt:72-78 | the ids the loops build over the 5 × 6 grid (constants at lines 41-42) are 30, no two equal |
| `Seats.GridEnds` | app/src/main/java/com/example/showtime/SeatActivity.kt:72-78 | the grid starts at "A1" and ends at "E6" |
| `Seats.BuildGrid` | app/src/main/java/com/example/showtime/SeatActivity.kt:72-78 | the nested row and column loops produce 30 ids, row by row, each the id of its seat |
| `Seats.RemoveFirst` | app/src/main/java/com/example/showtime/SeatActivity.kt:91 | list removal drops the first occurrence and keeps the rest in order; if the seat is absent the list is unchanged |
| `Seats.ToggleSeat` | app/src/main/java/com/example/showtime/SeatActivity.kt:89-100 | a selected seat is removed; an unselected one is appended while fewer than 3 are selected; otherwise the list is unchanged and the capacity notice is raised, in exactly that case |
| `Seats.DeselectRemovesOnlyThatSeat` | app/src/main/java/com/example/showtime/SeatActivity.kt:90-91 | deselecting removes that seat and only it: one seat fewer, same multiset minus that seat |
| `Seats.DeselectKeepsOrder` | app/src/main/java/com/example/showtime/SeatActivity.kt:90-91 | after deselecting, the remaining seats keep their relative click order |
| `Seats.ToggleKeepsInvariant` | app/src/main/java/com/example/showtime/SeatActivity.kt:90-99 | one click keeps the selection at 3 seats or fewer with no duplicate |
| `Seats.ToggleAll` | app/src/main/java/com/example/showtime/SeatActivity.kt:89-100 | the selection after a sequence of clicks is each click applied in turn |
| `Seats.ToggleAllKeepsInvariant` | app/src/main/java/com/example/showtime/SeatActivity.kt:90-99 | any sequence of clicks keeps the selection at 3 seats or fewer with no duplicate |
| `Seats.ReachableSelections` | app/src/main/java/com/example/showtime/SeatActivity.kt:43 | every selection reached from the initial empty list has at most 3 seats and no duplicate |
| `Seats.SelectThenDeselect` | app/src/main/java/com/example/showtime/SeatActivity.kt:93-94 | selecting a seat and clicking it again restores exactly the previous list, with no notice |
| `Seats.DeselectThenReselect` | app/src/main/java/com/example/showtime/SeatActivity.kt:90-94 | deselecting and reselecting a seat gives the same seats with that seat moved to the end |
| `Seats.RefusedTwice` | app/src/main/java/com/example/showtime/SeatActivity.kt:95-98 | a refused click repeated is refused again, and both leave the list unchanged |
| `Seats.ThreeSeatScenario` | app/src/main/java/com/example/showtime/SeatActivity.kt:93-98 | clicking A1, B2, C3 selects them in that order, and a fourth seat D4 is then refused |
| `Seats.SeatSelection.constructor` | app/src/main/java/com/example/showtime/SeatActivity.kt:43 | the selection starts empty |
| `Seats.SeatSelection.IsSelected` | app/src/main/java/com/example/showtime/SeatActivity.kt:79 | a seat is drawn as selected iff its id is in the list |
| `Seats.SeatSelection.Toggle` | app/src/main/java/com/example/showtime/SeatActivity.kt:89-100 | the click handler changes the list as `ToggleSeat` says and keeps the invariant: removal when selected, append when there is room, and otherwise no change with the notice |
| `Seats.SeatSelection.BookTickets` | app/src/main/java/com/example/showtime/SeatActivity.kt:113-128 | a payment request exists iff some seat is selected; it carries the showing and the seats in click order, unchanged |
| `Payment.RequestFromExtras` | app/src/main/java/com/example/showtime/PaymentActivity.kt:31-33 | missing extras become "Movie", "Showtime" and an empty seat list; present ones are kept |
| `Payment.TotalPrice` | app/src/main/java/com/example/showtime/PaymentActivity.kt:49-50 | the total is the seat count times 200; it is 0 exactly for no seats |
| `Payment.ToggleSeatPrice` | app/src/main/java/com/example/showtime/PaymentActivity.kt:50 | the total for a selection falls by 200 when a seat click deselects, rises by 200 when it selects, and stays the same when the click is refused |
| `Payment.TotalPriceBounded` | app/src/main/java/com/example/showtime/PaymentActivity.kt:50 | a selection within the cap costs at most 600 |
| `Payment.IsCardNumberValid` | app/src/main/java/com/example/showtime/PaymentActivity.kt:58 | the card number is valid iff it has exactly 16 characters, all digits |
| `Payment.IsCardHolderValid` | app/src/main/java/com/example/showtime/PaymentActivity.kt:59 | the holder name is valid iff it has at least 3 characters, each a letter or whitespace |
| `Payment.CardHolderExtend` | app/src/main/java/com/example/showtime/PaymentActivity.kt:59 | appending letters or whitespace to a valid holder name keeps it valid |
| `Payment.IsCvvValid` | app/src/main/java/com/example/showtime/PaymentActivity.kt:61 | the CVV is valid iff it has exactly 3 characters, all digits |
| `Payment.IsExpiryValid` | app/src/main/java/com/example/showtime/PaymentActivity.kt:60 | the expiry is valid iff the whole field matches `^(0[1-9]|1[0-2])/\d{2}$` |
| `Payment.MonthPatternMeaning` | app/src/main/java/com/example/showtime/PaymentActivity.kt:60 | the month group, `0[1-9]` or `1[0-2]`, matches exactly two digits with value 1 to 12 |
| `Payment.YearPatternMeaning` | app/src/main/java/com/example/showtime/PaymentActivity.kt:60 | `/\d{2}` matches exactly a '/' then two digits |
| `Payment.ExpiryPatternMeaning` | app/src/main/java/com/example/showtime/PaymentActivity.kt:60 | the expiry is valid iff it has 5 characters: a month "01".."12", '/' at index 2, and two digits |
| `Payment.CapsKeepValidValues` | app/src/main/java/com/example/showtime/PaymentActivity.kt:58-61 | a valid card number, expiry or CVV has exactly its cap's length, so truncation never changes it |
| `Payment.FullCardNumberIgnoresMoreTyping` | app/src/main/java/com/example/showtime/PaymentActivity.kt:106 | text appended after a valid 16-digit number is cut off, and the number is kept |
| `Payment.PaymentForm.constructor` | app/src/main/java/com/example/showtime/PaymentActivity.kt:53-56 | all four fields start empty |
| `Payment.PaymentForm.IsFormValid` | app/src/main/java/com/example/showtime/PaymentActivity.kt:62 | the form is valid iff all four field checks pass |
| `Payment.PaymentForm.IsPayEnabled` | app/src/main/java/com/example/showtime/PaymentActivity.kt:163 | the Pay button is enabled iff the form is valid |
| `Payment.PaymentForm.EditCardHolder` | app/src/main/java/com/example/showtime/PaymentActivity.kt:95 | the holder field takes the typed text unchanged |
| `Payment.PaymentForm.EditCardNumber` | app/src/main/java/com/example/showtime/PaymentActivity.kt:106 | the stored number is the first 16 typed characters, a prefix of the input, and the caps still hold |
| `Payment.PaymentForm.EditExpiryDate` | app/src/main/java/com/example/showtime/PaymentActivity.kt:119 | the stored expiry is the first 5 typed characters, a prefix of the input, and the caps still hold |
| `Payment.PaymentForm.EditCvv` | app/src/main/java/com/example/showtime/PaymentActivity.kt:128 | the stored CVV is the first 3 typed characters, a prefix of the input, and the caps still hold |
| `Payment.PaymentForm.Pay` | app/src/main/java/com/example/showtime/PaymentActivity.kt:138-163 | a press builds a booking iff the button is enabled, that is iff the four checks pass; the booking carries the movie, showtime and seats unchanged, a total of seats × 200 and the given timestamp; a press on the disabled button builds nothing |
| `Credentials.IsEmailValid` | app/src/main/java/com/example/showtime/LoginActivity.kt:64 | the e-mail is valid iff the whole address matches `^[A-Za-z0-9+_.-]+@[A-Za-z0-9.-]+$` |
| `Credentials.IsPasswordValid` | app/src/main/java/com/example/showtime/LoginActivity.kt:65 | the password is valid iff it has at least 6 characters |
| `Credentials.EmailPatternMeaning` | app/src/main/java/com/example/showtime/LoginActivity.kt:64 | the e-mail matches iff some '@' has one or more `[A-Za-z0-9+_.-]` characters before it and one or more `[A-Za-z0-9.-]` characters after it |
| `Credentials.ValidEmailHasOneAt` | app/src/main/java/com/example/showtime/SignupActivity.kt:57 | a valid e-mail contains exactly one '@' |
| `Login.LoginFormMeaning` | app/src/main/java/com/example/showtime/LoginActivity.kt:64-66 | the login form is valid iff the e-mail is well formed and the password has at least 6 characters |
| `Login.LoginErrorsOnlyForBadInput` | app/src/main/java/com/example/showtime/LoginActivity.kt:122-124 | the e-mail error shows iff the field is non-empty and not well formed; the password error shows iff it has 1 to 5 characters |
| `Login.LoginForm.constructor` | app/src/main/java/com/example/showtime/LoginActivity.kt:57-62 | empty fields, not loading, no error message |
| `Login.LoginForm.IsFormValid` | app/src/main/java/com/example/showtime/LoginActivity.kt:66 | the form is valid iff the e-mail and the password are |
| `Login.LoginForm.IsLoginEnabled` | app/src/main/java/com/example/showtime/LoginActivity.kt:188 | the login button is enabled iff the form is valid and nothing is loading |
| `Login.LoginForm.EmailErrorShown` | app/src/main/java/com/example/showtime/LoginActivity.kt:122 | the e-mail error shows iff the field is non-empty and invalid |
| `Login.LoginForm.PasswordErrorShown` | app/src/main/java/com/example/showtime/LoginActivity.kt:146 | the password error shows iff the field is non-empty and invalid |
| `Login.LoginForm.EditEmail` | app/src/main/java/com/example/showtime/LoginActivity.kt:115 | the e-mail field takes the typed text |
| `Login.LoginForm.EditPassword` | app/src/main/java/com/example/showtime/LoginActivity.kt:134 | the password field takes the typed text |
| `Login.LoginForm.PressLogin` | app/src/main/java/com/example/showtime/LoginActivity.kt:183-188 | a press is accepted iff the form is valid and not loading; an accepted press sets loading and clears the error message, and afterwards the button is disabled |
| `Signup.SignupFormMeaning` | app/src/main/java/com/example/showtime/SignupActivity.kt:57-60 | the sign-up form is valid iff the e-mail is well formed, the password has at least 6 characters, the confirmation equals it, and the user name is non-empty |
| `Signup.SignupErrorsOnlyForBadInput` | app/src/main/java/com/example/showtime/SignupActivity.kt:126-158 | the mismatch error shows iff the confirmation is non-empty and differs from the password; the e-mail error iff that field is non-empty and not well formed; the password error iff it has 1 to 5 characters |
| `Signup.SignupForm.constructor` | app/src/main/java/com/example/showtime/SignupActivity.kt:48-54 | empty fields and not loading |
| `Signup.SignupForm.IsConfirmPasswordValid` | app/src/main/java/com/example/showtime/SignupActivity.kt:59 | the confirmation is valid iff it equals the password |
| `Signup.SignupForm.IsFormValid` | app/src/main/java/com/example/showtime/SignupActivity.kt:60 | the form is valid iff the e-mail, password and confirmation are valid and the user name is non-empty |
| `Signup.SignupForm.IsSignupEnabled` | app/src/main/java/com/example/showtime/SignupActivity.kt:169 | the sign-up button is enabled iff the form is valid and nothing is loading |
| `Signup.SignupForm.EmailErrorShown` | app/src/main/java/com/example/showtime/SignupActivity.kt:126 | the e-mail error shows iff the field is non-empty and invalid |
| `Signup.SignupForm.PasswordErrorShown` | app/src/main/java/com/example/showtime/SignupActivity.kt:141 | the password error shows iff the field is non-empty and invalid |
| `Signup.SignupForm.MismatchErrorShown` | app/src/main/java/com/example/showtime/SignupActivity.kt:156 | the mismatch error shows iff the confirmation is non-empty and differs from the password |
| `Signup.SignupForm.EditUsername` | app/src/main/java/com/example/showtime/SignupActivity.kt:113 | the user-name field takes the typed text |
| `Signup.SignupForm.EditEmail` | app/src/main/java/com/example/showtime/SignupActivity.kt:122 | the e-mail field takes the typed text |
| `Signup.SignupForm.EditPassword` | app/src/main/java/com/example/showtime/SignupActivity.kt:136 | the password field takes the typed text |
| `Signup.SignupForm.EditConfirmPassword` | app/src/main/java/com/example/showtime/SignupActivity.kt:151 | the confirmation field takes the typed text |
| `Signup.SignupForm.PressSignup` | app/src/main/java/com/example/showtime/SignupActivity.kt:164-169 | a press is accepted, with the success notice, iff the form is valid and not loading; it sets loading, and afterwards the button is disabled |

## Left out

- Saving the booking to the Firestore `bookings` collection, with its success dialog and failure toast (PaymentActivity.kt:149-156), is an asynchronous call into the store. `Pay` returns the record that would be written, and stops there.
- `System.currentTimeMillis()` (PaymentActivity.kt:147) is clock I/O. It is the `timestamp` parameter of `Pay`.
- Toasts and dialogs are modelled only as returned notice flags. Navigation by intents, layout, colours and the splash delay are not modelled.
- The booking history, profile, movie list, splash and theme files hold no logic of this flow. They are not part of this model.
- Kotlin's `isDigit`, `isLetter` and `isWhitespace` accept Unicode characters; the model accepts only their ASCII members. The expiry pattern's `\d` is likewise taken as '0'..'9': on Android, `java.util.regex` is backed by ICU, where `\d` also matches the other Unicode decimal digits, so the model rejects some expiry dates a device would accept.
- Kotlin measures `length` and `take` in UTF-16 code units; the model measures in Unicode scalar values. The two differ only for characters outside the Basic Multilingual Plane.
- The regular-expression model covers only bracket classes, concatenation, alternation and `+`. The counted repetition `\d{2}` is written out as two digit classes, and the `^`/`$` anchors are not represented, since `matches` already compares the whole string.
- `Seats.SeatId`: requires a row from 1 to 26 so that the row name is a capital letter. The screen uses rows 1 to 5 only.
- Seat-screen clicks read `isSelected` as computed at the last recomposition (SeatActivity.kt:79). The model reads the current list, which is the same between clicks because every change recomposes the grid.
- The login button's handler sets loading and never clears it; there is no authentication call in the code to model. Sign-up's `errorMessage` is declared but never used. The password-visibility toggles and the remember-me box have no checks. None of these is modelled.
- Duplicate bookings from repeated taps come from asynchronous callbacks. There is no code logic for them to model.
- `Pay` checks only the card form, so a payment screen opened without a seat list builds a zero-seat, zero-price booking; the model keeps this. The seat screen never opens payment with an empty selection (`BookTickets`).
- `Payment.PaymentForm.Pay`: has no "Please fix form errors" notice. The handler's `else` branch (PaymentActivity.kt:157-158) cannot run, because the button is enabled only when `isFormValid` (line 163), and Compose calls `onClick` only on an enabled button.
