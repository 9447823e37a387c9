/** The guest counter of the header's "Who" panel (src/app/Navbar.tsx):
    three counts changed one step at a time by `adjustGuests`, the per-row
    floors that disable the minus buttons, and the `guestDisplay` label. */
module Guests {
  import opened Text

  datatype GuestKind = Adults | Children | Infants

  /** `guestCounts`; `adjustGuests` never lets a count below zero. */
  datatype GuestCounts = GuestCounts(adults: nat, children: nat, infants: nat)

  /** The counter's starting value: two adults. */
  const InitialCounts := GuestCounts(2, 0, 0)

  /** At least one adult is always booked. */
  predicate Valid(c: GuestCounts) {
    c.adults >= 1
  }

  function Count(c: GuestCounts, k: GuestKind): nat {
    match k
    case Adults => c.adults
    case Children => c.children
    case Infants => c.infants
  }

  function Total(c: GuestCounts): nat {
    c.adults + c.children + c.infants
  }

  /** `adjustGuests(key, delta)`: the chosen count moves by `delta` but not
      below zero, except that adults that would reach zero stay at one; the
      other two counts are untouched. No upper bound is enforced. */
  function AdjustGuests(c: GuestCounts, k: GuestKind, delta: int): (r: GuestCounts)
    ensures k != Adults ==> Count(r, k) == (if Count(c, k) + delta <= 0 then 0 else Count(c, k) + delta)
    ensures k == Adults ==> Count(r, k) == (if c.adults + delta <= 0 then 1 else c.adults + delta)
    ensures forall j :: j != k ==> Count(r, j) == Count(c, j)
    ensures Valid(c) ==> Valid(r)
  {
    var next := if Count(c, k) + delta < 0 then 0 else Count(c, k) + delta;
    var updated :=
      match k
      case Adults => c.(adults := next)
      case Children => c.(children := next)
      case Infants => c.(infants := next)
    ;
    if updated.adults == 0 && k == Adults then updated.(adults := 1) else updated
  }

  /** The row floors of the "Who" panel: one adult, no children, no infants. */
  function Floor(k: GuestKind): nat {
    if k == Adults then 1 else 0
  }

  /** The minus button of a row is enabled only above its floor. */
  predicate DecrementEnabled(c: GuestCounts, k: GuestKind) {
    Count(c, k) > Floor(k)
  }

  /** An enabled minus button removes exactly one guest of that kind, and a
      disabled one, if it could be pressed, would change nothing: on a valid
      counter the floors and the clamping in `adjustGuests` agree. */
  lemma DecrementAgreesWithFloor(c: GuestCounts, k: GuestKind)
    requires Valid(c)
    ensures DecrementEnabled(c, k) ==> Count(AdjustGuests(c, k, -1), k) == Count(c, k) - 1
    ensures !DecrementEnabled(c, k) ==> AdjustGuests(c, k, -1) == c
  {
  }

  /** A minus press followed by a plus press on an enabled row returns the
      counter to where it was. */
  lemma DecrementThenIncrement(c: GuestCounts, k: GuestKind)
    requires DecrementEnabled(c, k)
    ensures AdjustGuests(AdjustGuests(c, k, -1), k, 1) == c
  {
  }

  /** `guestDisplay`: "<total> guest", pluralised above one, or the
      placeholder when nobody is counted. */
  function GuestDisplay(c: GuestCounts): string {
    var total := Total(c);
    if total > 0 then NatToString(total) + " guest" + (if total > 1 then "s" else "")
    else "Add guests"
  }

  /** The run of digits at the start of a string, read as a number. */
  function LeadingNumber(s: string): nat {
    ParseNat(DigitPrefix(s))
  }

  function DigitPrefix(s: string): (p: string)
    ensures AllDigits(p) && p <= s
    ensures |p| < |s| ==> !IsDigit(s[|p|])
  {
    if s != [] && IsDigit(s[0]) then [s[0]] + DigitPrefix(s[1..]) else []
  }

  /** The label of a valid counter is never the placeholder: it opens with
      the total guest count and ends in "s" exactly when there is more than
      one guest. */
  lemma GuestDisplayReadsBack(c: GuestCounts)
    requires Valid(c)
    ensures var d := GuestDisplay(c);
      && d != "Add guests"
      && LeadingNumber(d) == Total(c)
      && (d[|d| - 1] == 's' <==> Total(c) > 1)
  {
    var n := NatToString(Total(c));
    var d := GuestDisplay(c);
    DigitPrefixOfNumber(n, d[|n|..]);
    assert d == n + d[|n|..];
    ParseNatToString(Total(c));
  }

  /** A run of digits followed by a non-digit is the digit prefix. */
  lemma {:induction false} DigitPrefixOfNumber(n: string, rest: string)
    requires AllDigits(n)
    requires rest != [] && !IsDigit(rest[0])
    ensures DigitPrefix(n + rest) == n
    decreases |n|
  {
    if n != [] {
      DigitPrefixOfNumber(n[1..], rest);
      assert (n + rest)[1..] == n[1..] + rest;
    }
  }

  /** Two adults plus one child reads "3 guests". */
  lemma ThreeGuestsExample()
    ensures GuestDisplay(AdjustGuests(InitialCounts, Children, 1)) == "3 guests"
  {
  }
}
