/**
 * Alumni card numbers: the four-digit enrollment year followed by an
 * eight-digit, zero-padded sequence number, and the allocator that reads the
 * greatest card number issued for the year and adds one to its sequence.
 */
module CardNumber {
  import opened Common
  import opened Text
  import opened Records

  const SequenceWidth := 8

  /** `String(sequence)`, where `None` is the `NaN` an unreadable sequence produces. */
  function FormatSequence(sequence: Option<int>): string
  {
    match sequence
    case None => "NaN"
    case Some(n) => IntToString(n)
  }

  /** `generateAlumniCardNo(enrollmentYear, sequence)`. */
  function GenerateCardNo(year: int, sequence: Option<int>): string
  {
    IntToString(year) + PadStart(FormatSequence(sequence), SequenceWidth, '0')
  }

  /** `cardNo.substring(4)`: the part after the year. */
  function Suffix(c: string): string
  {
    if |c| >= 4 then c[4..] else ""
  }

  /** The card numbers matched by the allocator's query `^<year>`. */
  function YearCards(users: map<Id, User>, year: int): set<string>
  {
    set id | id in users && users[id].alumniCardNo.Some? && StartsWith(users[id].alumniCardNo.value, IntToString(year))
      :: users[id].alumniCardNo.value
  }

  /** The next sequence: 1 for a year without cards, else the greatest card's sequence plus one. */
  function NextSequence(cards: set<string>): Option<int>
  {
    if cards == {} then Some(1)
    else match ParseInt(Suffix(MaxString(cards)))
      case None => None
      case Some(n) => Some(n + 1)
  }

  /** `generateUniqueCardNo(enrollmentYear)`: the card number issued next for the year. */
  function AllocateCardNo(users: map<Id, User>, year: int): string
  {
    GenerateCardNo(year, NextSequence(YearCards(users, year)))
  }

  predicate FourDigitYear(year: int)
  {
    1000 <= year <= 9999
  }

  /** Every card issued for the year so far has the shape year + eight digits. */
  predicate YearCardsWellFormed(users: map<Id, User>, year: int)
  {
    forall c :: c in YearCards(users, year) ==> |c| == 4 + SequenceWidth && AllDigits(Suffix(c))
  }

  /** The sequence a well-formed card carries. */
  function SequenceOf(c: string): nat
    requires |c| >= 4 && AllDigits(Suffix(c))
  {
    DigitsValue(Suffix(c))
  }

  lemma YearString(year: int)
    requires FourDigitYear(year)
    ensures |IntToString(year)| == 4
  {
    assert Pow10(3) == 1000 && Pow10(4) == 10000;
    NatToStringLength(year, 4);
  }

  lemma PaddedSequence(n: nat)
    requires n < Pow10(SequenceWidth)
    ensures var p := PadStart(IntToString(n), SequenceWidth, '0');
      |p| == SequenceWidth && AllDigits(p) && DigitsValue(p) == n
  {
    var s := NatToString(n);
    NatToStringLength(n, SequenceWidth);
    NatToStringValue(n);
    LeadingZeros(SequenceWidth - |s|, s);
    if |s| == SequenceWidth {
      assert Repeat('0', 0) + s == s;
    }
  }

  /**
   * A card number for a four-digit year and an eight-digit sequence is twelve
   * characters long, starts with the year, and reading its suffix back with
   * parseInt gives the sequence.
   */
  lemma {:induction false} CardNoRoundTrip(year: int, n: nat)
    requires FourDigitYear(year) && n < Pow10(SequenceWidth)
    ensures var c := GenerateCardNo(year, Some(n));
      && |c| == 4 + SequenceWidth
      && StartsWith(c, IntToString(year))
      && AllDigits(Suffix(c))
      && SequenceOf(c) == n
      && ParseInt(Suffix(c)) == Some(n)
  {
    var c := GenerateCardNo(year, Some(n));
    var p := PadStart(IntToString(n), SequenceWidth, '0');
    YearString(year);
    PaddedSequence(n);
    assert Suffix(c) == p;
    ParseIntDigits(p);
  }

  /** Cards of one year sort in the order of their sequences. */
  lemma {:induction false} CardOrder(year: int, a: nat, b: nat)
    requires FourDigitYear(year) && a < Pow10(SequenceWidth) && b < Pow10(SequenceWidth)
    ensures Less(GenerateCardNo(year, Some(a)), GenerateCardNo(year, Some(b))) <==> a < b
  {
    var pa := PadStart(IntToString(a), SequenceWidth, '0');
    var pb := PadStart(IntToString(b), SequenceWidth, '0');
    PaddedSequence(a);
    PaddedSequence(b);
    LessCommonPrefix(IntToString(year), pa, pb);
    FixedWidthOrder(pa, pb);
  }

  /** A card that starts with the year is the year followed by its suffix. */
  lemma SplitCard(c: string, year: int)
    requires FourDigitYear(year) && StartsWith(c, IntToString(year))
    ensures c == IntToString(year) + Suffix(c)
  {
    YearString(year);
  }

  /**
   * When every card of the year is well formed, the allocator reads a
   * sequence and picks one greater than every sequence already issued for
   * the year: 1 for the first card, the greatest sequence plus one after that.
   */
  lemma {:induction false} NextSequenceExceeds(users: map<Id, User>, year: int)
    requires FourDigitYear(year) && YearCardsWellFormed(users, year)
    ensures var cards := YearCards(users, year);
      && NextSequence(cards).Some?
      && NextSequence(cards).value >= 1
      && (forall c :: c in cards ==> SequenceOf(c) < NextSequence(cards).value)
      && (cards == {} ==> NextSequence(cards) == Some(1))
      && (cards != {} ==> exists c :: c in cards && NextSequence(cards).value == SequenceOf(c) + 1)
  {
    var cards := YearCards(users, year);
    if cards != {} {
      var m := MaxString(cards);
      ParseIntDigits(Suffix(m));
      forall c | c in cards
        ensures SequenceOf(c) <= SequenceOf(m)
      {
        if c != m {
          SplitCard(c, year);
          SplitCard(m, year);
          LessCommonPrefix(IntToString(year), Suffix(c), Suffix(m));
          FixedWidthOrder(Suffix(c), Suffix(m));
        }
      }
    }
  }

  /**
   * The allocated card number is held by no user yet: a twelve-character
   * result would carry a sequence already exceeded, a longer one differs
   * from every well-formed card of the year.
   */
  lemma {:induction false} AllocatedCardIsNew(users: map<Id, User>, year: int)
    requires FourDigitYear(year) && YearCardsWellFormed(users, year)
    ensures forall id :: id in users ==> users[id].alumniCardNo != Some(AllocateCardNo(users, year))
  {
    var cards := YearCards(users, year);
    NextSequenceExceeds(users, year);
    var n := NextSequence(cards).value;
    var c := AllocateCardNo(users, year);
    YearString(year);
    if n < Pow10(SequenceWidth) {
      CardNoRoundTrip(year, n);
    } else {
      NatToStringLength(n, SequenceWidth + 1);
      assert |c| > 4 + SequenceWidth;
    }
  }

  /** No two accounts hold the same card number. */
  predicate CardsUnique(users: map<Id, User>)
  {
    forall i, j :: i in users && j in users && i != j && users[i].alumniCardNo.Some? ==>
      users[i].alumniCardNo != users[j].alumniCardNo
  }

  /** Giving one account the allocated card keeps card numbers unique. */
  lemma AssignAllocatedCard(users: map<Id, User>, id: Id, u: User, year: int)
    requires FourDigitYear(year) && YearCardsWellFormed(users, year) && CardsUnique(users)
    requires u.alumniCardNo == Some(AllocateCardNo(users, year))
    ensures CardsUnique(users[id := u])
  {
    AllocatedCardIsNew(users, year);
  }

  /** Rewriting an account without changing its card keeps card numbers unique. */
  lemma SameCardKeepsCardsUnique(users: map<Id, User>, id: Id, u: User)
    requires CardsUnique(users) && id in users && u.alumniCardNo == users[id].alumniCardNo
    ensures CardsUnique(users[id := u])
  {
  }
}
