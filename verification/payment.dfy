/** The payment page: the card-number, expiry and CVV input filters, and the
    required-field checks made before a payment is submitted. */
module Payment {
  import opened Common
  import opened Text

  /** The card-number field shows at most sixteen digits, in groups of four. */
  const CARD_DIGITS: nat := 16
  const GROUP: nat := 4
  /** The `maxLength` of the card-number field: sixteen digits and three spaces. */
  const CARD_FIELD_LENGTH: nat := 19

  // ---------------------------------------------------------------------------
  // Card number

  /** The `substring(i, i + 4)` loop: consecutive chunks of four characters, the
      last one possibly shorter. */
  function Chunks(d: string): (parts: seq<string>)
    ensures d == [] <==> parts == []
    ensures forall k :: 0 <= k < |parts| ==> 1 <= |parts[k]| <= GROUP
    ensures forall k :: 0 <= k < |parts| - 1 ==> |parts[k]| == GROUP
    decreases |d|
  {
    if d == [] then []
    else if |d| <= GROUP then [d]
    else [d[..GROUP]] + Chunks(d[GROUP..])
  }

  lemma Mod5Shift(i: int)
    requires i >= 5
    ensures (i - 5) % 5 == i % 5
  {
  }

  /** Past the first group, the grouped text is the first four characters, a
      space, and the grouping of the rest. */
  lemma GroupedUnfold(d: string)
    requires |d| > GROUP
    ensures Join(Chunks(d), " ") == d[..GROUP] + " " + Join(Chunks(d[GROUP..]), " ")
  {
    assert Chunks(d)[1..] == Chunks(d[GROUP..]);
  }

  lemma {:induction false} GroupedLength(d: string)
    requires d != []
    ensures |Join(Chunks(d), " ")| == |d| + (|d| - 1) / GROUP
    decreases |d|
  {
    if |d| > GROUP {
      GroupedUnfold(d);
      GroupedLength(d[GROUP..]);
    }
  }

  lemma {:induction false} GroupedStrip(d: string)
    requires AllDigits(d) && d != []
    ensures StripSpaces(Join(Chunks(d), " ")) == d
    decreases |d|
  {
    DigitsAreNotSpaces(d);
    if |d| <= GROUP {
      StripSpacesNoSpaces(d);
    } else {
      var head, tail := d[..GROUP], d[GROUP..];
      var r' := Join(Chunks(tail), " ");
      GroupedUnfold(d);
      GroupedStrip(tail);
      StripSpacesAppend(head + " ", r');
      StripSpacesAppend(head, " ");
      DigitsAreNotSpaces(head);
      StripSpacesNoSpaces(head);
      assert StripSpaces(" ") == [];
      assert head + tail == d;
    }
  }

  lemma {:induction false} GroupedLayout(d: string)
    requires AllDigits(d) && d != []
    ensures var r := Join(Chunks(d), " ");
      && (forall i :: 0 <= i < |r| ==> (r[i] == ' ' <==> i % 5 == 4))
      && (forall i :: 0 <= i < |r| && i % 5 != 4 ==> IsDigit(r[i]))
    decreases |d|
  {
    var r := Join(Chunks(d), " ");
    DigitsAreNotSpaces(d);
    if |d| <= GROUP {
      assert r == d;
    } else {
      var r' := Join(Chunks(d[GROUP..]), " ");
      GroupedUnfold(d);
      GroupedLayout(d[GROUP..]);
      forall i | 0 <= i < |r|
        ensures r[i] == ' ' <==> i % 5 == 4
        ensures i % 5 != 4 ==> IsDigit(r[i])
      {
        if i < GROUP {
          assert r[i] == d[i];
        } else if i >= 5 {
          assert r[i] == r'[i - 5];
          Mod5Shift(i);
        }
      }
    }
  }

  /** The chunks of a digit string, joined by single spaces: removing the spaces
      gives the digits back, the spaces sit exactly at every fifth position, and
      digits everywhere else. */
  lemma GroupedDigits(d: string)
    requires AllDigits(d) && d != []
    ensures var r := Join(Chunks(d), " ");
      && |r| == |d| + (|d| - 1) / GROUP
      && StripSpaces(r) == d
      && (forall i :: 0 <= i < |r| ==> (r[i] == ' ' <==> i % 5 == 4))
      && (forall i :: 0 <= i < |r| && i % 5 != 4 ==> IsDigit(r[i]))
  {
    GroupedLength(d);
    GroupedStrip(d);
    GroupedLayout(d);
  }

  /** `formatCardNumber`: when the input holds at least four digits, the first
      sixteen of them (at most) in groups of four separated by single spaces;
      otherwise the input itself, non-digits included. */
  function FormatCardNumber(value: string): (r: string)
    ensures |Digits(value)| < GROUP ==> r == value
    ensures |Digits(value)| >= GROUP ==>
      && StripSpaces(r) == Digits(value)[..Min(|Digits(value)|, CARD_DIGITS)]
      && |r| == Min(|Digits(value)|, CARD_DIGITS) + (Min(|Digits(value)|, CARD_DIGITS) - 1) / GROUP
      && |r| <= CARD_FIELD_LENGTH
      && (forall i :: 0 <= i < |r| ==> (r[i] == ' ' <==> i % 5 == 4))
      && (forall i :: 0 <= i < |r| && i % 5 != 4 ==> IsDigit(r[i]))
  {
    var v := Digits(StripSpaces(value));
    DigitsIgnoreSpaces(value);
    if |v| >= GROUP then
      var first := v[..Min(|v|, CARD_DIGITS)];
      GroupedDigits(first);
      Join(Chunks(first), " ")
    else value
  }

  /** Formatting what the field already shows changes nothing. */
  lemma FormatCardIdempotent(value: string)
    ensures FormatCardNumber(FormatCardNumber(value)) == FormatCardNumber(value)
  {
    var v := Digits(value);
    if |v| >= GROUP {
      DigitsIgnoreSpaces(value);
      var r := FormatCardNumber(value);
      var first := v[..Min(|v|, CARD_DIGITS)];
      assert r == Join(Chunks(first), " ");
      GroupedDigits(first);
      assert StripSpaces(r) == first;
      assert Digits(StripSpaces(r)) == first;
      assert first[..Min(|first|, CARD_DIGITS)] == first;
    }
  }

  // ---------------------------------------------------------------------------
  // Expiry and CVV

  /** The expiry `onChange` filter: the digits only; with two or more, the first
      two, a slash and at most two more. */
  function FormatExpiry(value: string): (r: string)
    ensures var d := Digits(value);
      && (|d| < 2 ==> r == d)
      && (|d| >= 2 ==>
            |r| == Min(|d|, 4) + 1 && r[2] == '/' && r[..2] + r[3..] == d[..Min(|d|, 4)])
  {
    var d := Digits(value);
    if |d| >= 2 then d[..2] + "/" + d[2..Min(|d|, 4)] else d
  }

  /** The digits of a formatted expiry are the digits it was formatted from. */
  lemma ExpiryDigits(d: string, e: nat)
    requires AllDigits(d) && 2 <= e <= |d|
    ensures Digits(d[..2] + "/" + d[2..e]) == d[..e]
  {
    var a, b := d[..2], d[2..e];
    assert AllDigits(a) && AllDigits(b);
    SlashDigits(b);
    calc {
      Digits(d[..2] + "/" + d[2..e]);
      { assert d[..2] + "/" + d[2..e] == a + ("/" + b); }
      Digits(a + ("/" + b));
      { DigitsAppend(a, "/" + b); }
      Digits(a) + Digits("/" + b);
      a + b;
      { assert a + b == d[..e]; }
      d[..e];
    }
  }

  /** The slash the expiry filter inserts is dropped again by the digit filter. */
  lemma SlashDigits(b: string)
    requires AllDigits(b)
    ensures Digits("/" + b) == b
  {
    DigitsAppend("/", b);
    assert Digits("/") == [];
  }

  /** Re-filtering a formatted expiry changes nothing. */
  lemma FormatExpiryIdempotent(value: string)
    ensures FormatExpiry(FormatExpiry(value)) == FormatExpiry(value)
  {
    var d := Digits(value);
    var r := FormatExpiry(value);
    if |d| >= 2 {
      var e := Min(|d|, 4);
      assert r == d[..2] + "/" + d[2..e];
      ExpiryDigits(d, e);
      var d' := d[..e];
      assert Digits(r) == d';
      assert |d'| == e && Min(|d'|, 4) == e;
      assert d'[..2] == d[..2] && d'[2..e] == d[2..e];
      assert FormatExpiry(r) == d'[..2] + "/" + d'[2..e];
    }
  }

  /** The CVV `onChange` filter: the first three digits at most. */
  function FormatCvv(value: string): (r: string)
    ensures AllDigits(r)
    ensures |r| == Min(|Digits(value)|, 3)
    ensures r == Digits(value)[..|r|]
  {
    var d := Digits(value);
    d[..Min(|d|, 3)]
  }

  lemma FormatCvvIdempotent(value: string)
    ensures FormatCvv(FormatCvv(value)) == FormatCvv(value)
  {
  }

  // ---------------------------------------------------------------------------
  // Submission

  datatype Method = Card | Upi

  /** The form fields; JavaScript treats an empty string as missing. */
  datatype PaymentForm = PaymentForm(
    passengerName: string,
    email: string,
    phone: string,
    paymentMethod: Method,
    cardNumber: string,
    cardName: string,
    expiryDate: string,
    cvv: string,
    upiId: string)

  datatype Outcome = Proceed | Alert(message: string)

  const PASSENGER_MISSING: string := "Please fill in all passenger details"
  const CARD_MISSING: string := "Please fill in all card details"
  const UPI_MISSING: string := "Please enter UPI ID"

  predicate PassengerComplete(f: PaymentForm) {
    f.passengerName != "" && f.email != "" && f.phone != ""
  }

  predicate CardComplete(f: PaymentForm) {
    f.cardNumber != "" && f.cardName != "" && f.expiryDate != "" && f.cvv != ""
  }

  /** `handlePayment`: passenger details first, then the fields of the chosen
      method. */
  function Validate(f: PaymentForm): (o: Outcome)
    ensures o == Proceed <==>
      PassengerComplete(f) && (if f.paymentMethod == Card then CardComplete(f) else f.upiId != "")
    ensures o == Alert(PASSENGER_MISSING) <==> !PassengerComplete(f)
    ensures o.Alert? ==> o.message in {PASSENGER_MISSING, CARD_MISSING, UPI_MISSING}
    ensures o == Alert(CARD_MISSING) <==>
      PassengerComplete(f) && f.paymentMethod == Card && !CardComplete(f)
    ensures o == Alert(UPI_MISSING) <==>
      PassengerComplete(f) && f.paymentMethod == Upi && f.upiId == ""
  {
    if !PassengerComplete(f) then Alert(PASSENGER_MISSING)
    else if f.paymentMethod == Card then
      if !CardComplete(f) then Alert(CARD_MISSING) else Proceed
    else if f.upiId == "" then
      assert f.paymentMethod == Upi;
      Alert(UPI_MISSING)
    else Proceed
  }

  /** A card payment does not look at the UPI id, and a UPI payment does not look
      at the card fields; missing passenger details stop either. */
  lemma ValidateIgnoresOtherMethod(f: PaymentForm, upi: string, number: string, name: string, expiry: string, cvv: string, m: Method)
    ensures f.paymentMethod == Card ==> Validate(f.(upiId := upi)) == Validate(f)
    ensures f.paymentMethod == Upi ==>
      Validate(f.(cardNumber := number, cardName := name, expiryDate := expiry, cvv := cvv)) == Validate(f)
    ensures !PassengerComplete(f) ==> Validate(f.(paymentMethod := m)) == Alert(PASSENGER_MISSING)
  {
  }
}
