/**
 * The payment screen: the price of the chosen seats, the four card-form checks,
 * the length caps applied while typing, and the booking record the "Pay" button
 * builds when the form is valid.
 */
module Payment {
  import opened Wrappers
  import opened Text
  import opened Pattern
  import opened Seats

  const PricePerSeat := 200
  const CardNumberLength := 16
  const MinCardHolderLength := 3
  const ExpiryLength := 5
  const CvvLength := 3

  /** The record saved for a confirmed payment; `timestamp` is the client clock reading supplied by the caller. */
  datatype Booking = Booking(movieTitle: string, showTime: string, seats: seq<string>, totalPrice: int, timestamp: int)

  /** The screen's arguments: missing extras fall back to "Movie", "Showtime" and no seats. */
  function RequestFromExtras(movieTitle: Option<string>, showTime: Option<string>, seats: Option<seq<string>>): (r: PaymentRequest)
    ensures r.movieTitle == (if movieTitle.Some? then movieTitle.value else "Movie")
    ensures r.showTime == (if showTime.Some? then showTime.value else "Showtime")
    ensures r.seats == (if seats.Some? then seats.value else [])
  {
    PaymentRequest(movieTitle.GetOr("Movie"), showTime.GetOr("Showtime"), seats.GetOr([]))
  }

  /** `totalPrice`: 200 per seat. */
  function TotalPrice(seats: seq<string>): (r: nat)
    ensures r == |seats| * PricePerSeat
    ensures r == 0 <==> seats == []
  {
    |seats| * PricePerSeat
  }

  /** One more seat costs exactly one more seat price. */
  lemma TotalPriceAppend(seats: seq<string>, id: string)
    ensures TotalPrice(seats + [id]) == TotalPrice(seats) + PricePerSeat
  {
  }

  /**
   * The total follows each click on the seat screen: 200 less after a deselect, 200 more
   * after an accepted select, and unchanged after a refused click.
   */
  lemma ToggleSeatPrice(s: seq<string>, id: string)
    ensures id in s ==> TotalPrice(ToggleSeat(s, id).seats) == TotalPrice(s) - PricePerSeat
    ensures id !in s && |s| < MaxSeats ==> TotalPrice(ToggleSeat(s, id).seats) == TotalPrice(s) + PricePerSeat
    ensures ToggleSeat(s, id).capacityNotice ==> TotalPrice(ToggleSeat(s, id).seats) == TotalPrice(s)
  {
    if id in s {
      var i := IndexOf(s, id);
      assert |s[..i] + s[i + 1..]| == |s| - 1;
    } else if |s| < MaxSeats {
      TotalPriceAppend(s, id);
    }
  }

  /** A selection within the cap costs at most 600. */
  lemma TotalPriceBounded(seats: seq<string>)
    requires SelectionInvariant(seats)
    ensures TotalPrice(seats) <= MaxSeats * PricePerSeat
  {
  }

  /** `isCardNumberValid`: sixteen characters, all digits. */
  predicate IsCardNumberValid(s: string) {
    |s| == CardNumberLength && AllDigits(s)
  }

  /** `isCardHolderValid`: at least three characters, each a letter or whitespace. */
  predicate IsCardHolderValid(s: string) {
    |s| >= MinCardHolderLength && forall k :: 0 <= k < |s| ==> IsLetter(s[k]) || IsWhitespace(s[k])
  }

  /** The holder field has no cap: appending letters or whitespace to a valid name keeps it valid. */
  lemma CardHolderExtend(s: string, t: string)
    requires IsCardHolderValid(s)
    requires forall k :: 0 <= k < |t| ==> IsLetter(t[k]) || IsWhitespace(t[k])
    ensures IsCardHolderValid(s + t)
  {
    forall k | 0 <= k < |s + t| ensures IsLetter((s + t)[k]) || IsWhitespace((s + t)[k]) {
      if k < |s| {
        assert (s + t)[k] == s[k];
      } else {
        assert (s + t)[k] == t[k - |s|];
      }
    }
  }

  /** `isCvvValid`: three characters, all digits. */
  predicate IsCvvValid(s: string) {
    |s| == CvvLength && AllDigits(s)
  }

  /** `\d`, taken as the ASCII digits '0'..'9'. */
  const DigitRanges := [Range('0', '9')]

  /** `(0[1-9]|1[0-2])`. */
  const MonthPattern := Alt(Cat(Lit('0'), Class([Range('1', '9')])), Cat(Lit('1'), Class([Range('0', '2')])))

  /** `/\d{2}`, the counted repetition written out as two digit classes. */
  const YearPattern := Cat(Lit('/'), Cat(Class(DigitRanges), Class(DigitRanges)))

  /** `^(0[1-9]|1[0-2])/\d{2}$`. */
  const ExpiryPattern := Cat(MonthPattern, YearPattern)

  /** `isExpiryValid`: the whole field matches the expiry pattern. */
  predicate IsExpiryValid(s: string) {
    Matches(ExpiryPattern, s)
  }

  /** Two digits naming a month, "01" to "12". */
  predicate IsMonth(mm: string) {
    |mm| == 2 && AllDigits(mm) && 1 <= DecimalValue(mm) <= 12
  }

  /** The shape `MM/YY`: five characters, a month, a '/', and two digits. */
  predicate WellFormedExpiry(s: string) {
    |s| == ExpiryLength && IsMonth(s[..2]) && s[2] == '/' && IsDigit(s[3]) && IsDigit(s[4])
  }

  lemma LitMeaning(c: char, d: char)
    ensures InClass(d, [Range(c, c)]) <==> d == c
  {
    assert Range(c, c) in [Range(c, c)];
  }

  lemma RangeMeaning(lo: char, hi: char, d: char)
    ensures InClass(d, [Range(lo, hi)]) <==> lo <= d <= hi
  {
    assert Range(lo, hi) in [Range(lo, hi)];
  }

  lemma MonthPatternMeaning(mm: string)
    ensures Matches(MonthPattern, mm) <==> IsMonth(mm)
  {
    ClassPair([Range('0', '0')], [Range('1', '9')], mm);
    ClassPair([Range('1', '1')], [Range('0', '2')], mm);
    if |mm| == 2 {
      LitMeaning('0', mm[0]);
      LitMeaning('1', mm[0]);
      RangeMeaning('1', '9', mm[1]);
      RangeMeaning('0', '2', mm[1]);
      if AllDigits(mm) {
        assert mm[..1] == [mm[0]] && mm[..1][..0] == [];
        assert DecimalValue(mm[..1]) == DigitValue(mm[0]);
        assert DecimalValue(mm) == DigitValue(mm[0]) * 10 + DigitValue(mm[1]);
      }
    }
  }

  lemma YearPatternMeaning(u: string)
    ensures Matches(YearPattern, u) <==> |u| == 3 && u[0] == '/' && IsDigit(u[1]) && IsDigit(u[2])
  {
    assert forall t :: Matches(Lit('/'), t) ==> |t| == 1;
    CatFixed(Lit('/'), Cat(Class(DigitRanges), Class(DigitRanges)), 1, u);
    if |u| >= 1 {
      ClassPair(DigitRanges, DigitRanges, u[1..]);
      assert u[..1][0] == u[0];
      LitMeaning('/', u[0]);
      if |u| == 3 {
        RangeMeaning('0', '9', u[1]);
        RangeMeaning('0', '9', u[2]);
        assert u[1..][0] == u[1] && u[1..][1] == u[2];
      }
    }
  }

  /** `isExpiryValid` holds exactly for a month "01".."12", a '/', and two digits. */
  lemma ExpiryPatternMeaning(s: string)
    ensures IsExpiryValid(s) <==> WellFormedExpiry(s)
  {
    forall t | Matches(MonthPattern, t) ensures |t| == 2 {
      MonthPatternMeaning(t);
    }
    CatFixed(MonthPattern, YearPattern, 2, s);
    if |s| >= 2 {
      MonthPatternMeaning(s[..2]);
      YearPatternMeaning(s[2..]);
      if |s| == ExpiryLength {
        assert s[2..][0] == s[2] && s[2..][1] == s[3] && s[2..][2] == s[4];
      }
    }
  }

  /** Text appended after a full sixteen-digit card number is cut off, and the number is kept. */
  lemma FullCardNumberIgnoresMoreTyping(number: string, more: string)
    requires IsCardNumberValid(number)
    ensures Take(number + more, CardNumberLength) == number
  {
    assert (number + more)[..CardNumberLength] == number;
  }

  /** The length caps never cut a value that passes its check: each valid value is exactly as long as its cap. */
  lemma CapsKeepValidValues(number: string, expiry: string, cvv: string)
    ensures IsCardNumberValid(number) ==> |number| == CardNumberLength && Take(number, CardNumberLength) == number
    ensures IsExpiryValid(expiry) ==> |expiry| == ExpiryLength && Take(expiry, ExpiryLength) == expiry
    ensures IsCvvValid(cvv) ==> |cvv| == CvvLength && Take(cvv, CvvLength) == cvv
  {
    ExpiryPatternMeaning(expiry);
  }

  /** The payment form: its four text fields, edited in place as the user types. */
  class PaymentForm {
    const request: PaymentRequest
    var cardNumber: string
    var cardHolder: string
    var expiryDate: string
    var cvv: string

    /** The length caps the edit handlers keep. */
    ghost predicate Valid()
      reads this
    {
      |cardNumber| <= CardNumberLength && |expiryDate| <= ExpiryLength && |cvv| <= CvvLength
    }

    /** The screen opens with every field empty. */
    constructor (request: PaymentRequest)
      ensures Valid()
      ensures this.request == request
      ensures cardNumber == [] && cardHolder == [] && expiryDate == [] && cvv == []
    {
      this.request := request;
      cardNumber, cardHolder, expiryDate, cvv := [], [], [], [];
    }

    /** `isFormValid`: all four fields pass their checks. */
    predicate IsFormValid()
      reads this
    {
      IsCardNumberValid(cardNumber) && IsCardHolderValid(cardHolder) && IsExpiryValid(expiryDate) && IsCvvValid(cvv)
    }

    /** The card-holder field takes the typed text as it is. */
    method EditCardHolder(typed: string)
      requires Valid()
      modifies this`cardHolder
      ensures Valid()
      ensures cardHolder == typed
    {
      cardHolder := typed;
    }

    /** The card-number field keeps the first sixteen typed characters. */
    method EditCardNumber(typed: string)
      requires Valid()
      modifies this`cardNumber
      ensures Valid()
      ensures cardNumber <= typed
      ensures cardNumber == Take(typed, CardNumberLength)
    {
      cardNumber := Take(typed, CardNumberLength);
    }

    /** The expiry field keeps the first five typed characters. */
    method EditExpiryDate(typed: string)
      requires Valid()
      modifies this`expiryDate
      ensures Valid()
      ensures expiryDate <= typed
      ensures expiryDate == Take(typed, ExpiryLength)
    {
      expiryDate := Take(typed, ExpiryLength);
    }

    /** The CVV field keeps the first three typed characters. */
    method EditCvv(typed: string)
      requires Valid()
      modifies this`cvv
      ensures Valid()
      ensures cvv <= typed
      ensures cvv == Take(typed, CvvLength)
    {
      cvv := Take(typed, CvvLength);
    }

    /** The "Pay" button's `enabled` condition: the whole form is valid. */
    predicate IsPayEnabled()
      reads this
    {
      IsFormValid()
    }

    /**
     * A press of the "Pay" button. A disabled button ignores the press and builds nothing.
     * An enabled one runs the click handler, which finds the form valid and builds the
     * booking record from the screen's movie, showtime and seats, priced at 200 per seat.
     */
    method Pay(timestamp: int) returns (booking: Option<Booking>)
      ensures booking.Some? <==> IsPayEnabled()
      ensures booking.Some? ==>
                IsFormValid() &&
                booking.value.movieTitle == request.movieTitle &&
                booking.value.showTime == request.showTime &&
                booking.value.seats == request.seats &&
                booking.value.totalPrice == |request.seats| * PricePerSeat &&
                booking.value.timestamp == timestamp
    {
      if IsPayEnabled() {
        var total := TotalPrice(request.seats);
        booking := Some(Booking(request.movieTitle, request.showTime, request.seats, total, timestamp));
      } else {
        booking := None;
      }
    }
  }
}
