/**
 * The Bootstrap icon set as an enumeration: each constant names one icon and
 * carries the file-name fragment of its SVG ("bi-" + fragment + ".svg").
 */
module BiIcons {
  import opened Wrappers

  /** The constants of the enum, in declaration order. */
  datatype Bi =
    | ArrowLeftCircle
    | ArrowLeftSquareFill
    | ArrowRepeat
    | Bank
    | BoxArrowInDown
    | BoxArrowUp
    | Calculator
    | CartX
    | CashCoin
    | CashStack
    | Clock
    | CurrencyDollar
    | DatabaseFillX
    | DoorOpen
    | Gear
    | Grid
    | Lock
    | Palette
    | Percent
    | PersonAdd
    | Printer
    | Receipt
    | Rulers
    | Save
    | Trash
    | UpcScan
    | XCircle
  {
    /** The fragment the constant was constructed with (getIcon). */
    function Icon(): (fragment: string)
    {
      match this
      case ArrowLeftCircle => "arrow-left-circle"
      case ArrowLeftSquareFill => "arrow-left-square-fill"
      case ArrowRepeat => "arrow-repeat"
      case Bank => "bank"
      case BoxArrowInDown => "box-arrow-in-down"
      case BoxArrowUp => "box-arrow-up"
      case Calculator => "calculator"
      case CartX => "cart-x"
      case CashCoin => "cash-coin"
      case CashStack => "cash-stack"
      case Clock => "clock"
      case CurrencyDollar => "currency-dollar"
      case DatabaseFillX => "database-fill-x"
      case DoorOpen => "door-open"
      case Gear => "gear"
      case Grid => "grid"
      case Lock => "lock"
      case Palette => "palette"
      case Percent => "percent"
      case PersonAdd => "person-add"
      case Printer => "printer"
      case Receipt => "receipt"
      case Rulers => "rulers"
      case Save => "save"
      case Trash => "trash"
      case UpcScan => "upc-scan"
      case XCircle => "x-circle"
    }

    /** The Java name of the constant (Enum.name()). */
    function ConstantName(): (name: string)
    {
      match this
      case ArrowLeftCircle => "ARROW_LEFT_CIRCLE"
      case ArrowLeftSquareFill => "ARROW_LEFT_SQUARE_FILL"
      case ArrowRepeat => "ARROW_REPEAT"
      case Bank => "BANK"
      case BoxArrowInDown => "BOX_ARROW_IN_DOWN"
      case BoxArrowUp => "BOX_ARROW_UP"
      case Calculator => "CALCULATOR"
      case CartX => "CART_X"
      case CashCoin => "CASH_COIN"
      case CashStack => "CASH_STACK"
      case Clock => "CLOCK"
      case CurrencyDollar => "CURRENCY_DOLLAR"
      case DatabaseFillX => "DATABASE_FILL_X"
      case DoorOpen => "DOOR_OPEN"
      case Gear => "GEAR"
      case Grid => "GRID"
      case Lock => "LOCK"
      case Palette => "PALETTE"
      case Percent => "PERCENT"
      case PersonAdd => "PERSON_ADD"
      case Printer => "PRINTER"
      case Receipt => "RECEIPT"
      case Rulers => "RULERS"
      case Save => "SAVE"
      case Trash => "TRASH"
      case UpcScan => "UPC_SCAN"
      case XCircle => "X_CIRCLE"
    }

    /** The position of the constant in declaration order (Enum.ordinal()). */
    function Ordinal(): (i: nat)
    {
      match this
      case ArrowLeftCircle => 0
      case ArrowLeftSquareFill => 1
      case ArrowRepeat => 2
      case Bank => 3
      case BoxArrowInDown => 4
      case BoxArrowUp => 5
      case Calculator => 6
      case CartX => 7
      case CashCoin => 8
      case CashStack => 9
      case Clock => 10
      case CurrencyDollar => 11
      case DatabaseFillX => 12
      case DoorOpen => 13
      case Gear => 14
      case Grid => 15
      case Lock => 16
      case Palette => 17
      case Percent => 18
      case PersonAdd => 19
      case Printer => 20
      case Receipt => 21
      case Rulers => 22
      case Save => 23
      case Trash => 24
      case UpcScan => 25
      case XCircle => 26
    }
  }

  /** All constants in declaration order (Bi.values()). */
  const Values: seq<Bi> := [ArrowLeftCircle, ArrowLeftSquareFill, ArrowRepeat, Bank, BoxArrowInDown, BoxArrowUp, Calculator, CartX, CashCoin, CashStack, Clock, CurrencyDollar, DatabaseFillX, DoorOpen, Gear, Grid, Lock, Palette, Percent, PersonAdd, Printer, Receipt, Rulers, Save, Trash, UpcScan, XCircle]

  /**
   * A proof helper, not an operation of the enumeration: the constant whose
   * fragment is s, if any. Each test compares the length first, which changes
   * nothing but makes the chain cheap for the verifier.
   */
  function FromIcon(s: string): (b: Option<Bi>)
  {
    if |s| == 17 && s == "arrow-left-circle" then Some(ArrowLeftCircle)
    else if |s| == 22 && s == "arrow-left-square-fill" then Some(ArrowLeftSquareFill)
    else if |s| == 12 && s == "arrow-repeat" then Some(ArrowRepeat)
    else if |s| == 4 && s == "bank" then Some(Bank)
    else if |s| == 17 && s == "box-arrow-in-down" then Some(BoxArrowInDown)
    else if |s| == 12 && s == "box-arrow-up" then Some(BoxArrowUp)
    else if |s| == 10 && s == "calculator" then Some(Calculator)
    else if |s| == 6 && s == "cart-x" then Some(CartX)
    else if |s| == 9 && s == "cash-coin" then Some(CashCoin)
    else if |s| == 10 && s == "cash-stack" then Some(CashStack)
    else if |s| == 5 && s == "clock" then Some(Clock)
    else if |s| == 15 && s == "currency-dollar" then Some(CurrencyDollar)
    else if |s| == 15 && s == "database-fill-x" then Some(DatabaseFillX)
    else if |s| == 9 && s == "door-open" then Some(DoorOpen)
    else if |s| == 4 && s == "gear" then Some(Gear)
    else if |s| == 4 && s == "grid" then Some(Grid)
    else if |s| == 4 && s == "lock" then Some(Lock)
    else if |s| == 7 && s == "palette" then Some(Palette)
    else if |s| == 7 && s == "percent" then Some(Percent)
    else if |s| == 10 && s == "person-add" then Some(PersonAdd)
    else if |s| == 7 && s == "printer" then Some(Printer)
    else if |s| == 7 && s == "receipt" then Some(Receipt)
    else if |s| == 6 && s == "rulers" then Some(Rulers)
    else if |s| == 4 && s == "save" then Some(Save)
    else if |s| == 5 && s == "trash" then Some(Trash)
    else if |s| == 8 && s == "upc-scan" then Some(UpcScan)
    else if |s| == 8 && s == "x-circle" then Some(XCircle)
    else None
  }

  /** A constant name in Java's style: upper-case letters and underscores. */
  predicate IsConstantName(name: string) {
    forall i :: 0 <= i < |name| ==> 'A' <= name[i] <= 'Z' || name[i] == '_'
  }

  /** A fragment in Bootstrap's file-name style: lower-case letters and hyphens. */
  predicate IsFragment(s: string) {
    forall i :: 0 <= i < |s| ==> 'a' <= s[i] <= 'z' || s[i] == '-'
  }

  /** An upper-case letter lowered, '_' turned into '-', anything else kept. */
  function KebabChar(c: char): char {
    if 'A' <= c <= 'Z' then (c as int - 'A' as int + 'a' as int) as char
    else if c == '_' then '-'
    else c
  }

  /** A constant name turned into a file-name fragment, character by character. */
  function KebabCase(name: string): (s: string)
    ensures IsConstantName(name) ==> IsFragment(s)
  {
    seq(|name|, i requires 0 <= i < |name| => KebabChar(name[i]))
  }

  /** Turning names into fragments distributes over concatenation. */
  lemma KebabCaseAppend(a: string, b: string)
    ensures KebabCase(a + b) == KebabCase(a) + KebabCase(b)
  {
  }

  /** The longest constant name, checked in two halves. */
  lemma KebabCaseOfLongestName()
    ensures KebabCase("ARROW_LEFT_SQUARE_FILL") == "arrow-left-square-fill"
  {
    assert KebabCase("ARROW_LEFT_") == "arrow-left-";
    assert KebabCase("SQUARE_FILL") == "square-fill";
    KebabCaseAppend("ARROW_LEFT_", "SQUARE_FILL");
    assert "ARROW_LEFT_SQUARE_FILL" == "ARROW_LEFT_" + "SQUARE_FILL";
  }

  /**
   * Every fragment is its constant's name lowercased with '_' turned into '-'.
   * The constants are checked in small groups by ordinal, each group a lemma of
   * its own, because unfolding KebabCase over all 27 names at once is more than
   * the solver handles in one proof obligation.
   */
  lemma IconIsKebabCaseOfName(b: Bi)
    ensures b.Icon() == KebabCase(b.ConstantName())
  {
    if b.Ordinal() < 1 {
      IconIsKebabCaseOfNameGroup0(b);
    } else if b.Ordinal() < 2 {
      IconIsKebabCaseOfNameGroup1(b);
    } else if b.Ordinal() < 4 {
      IconIsKebabCaseOfNameGroup2(b);
    } else if b.Ordinal() < 6 {
      IconIsKebabCaseOfNameGroup3(b);
    } else if b.Ordinal() < 8 {
      IconIsKebabCaseOfNameGroup4(b);
    } else if b.Ordinal() < 10 {
      IconIsKebabCaseOfNameGroup5(b);
    } else if b.Ordinal() < 12 {
      IconIsKebabCaseOfNameGroup6(b);
    } else if b.Ordinal() < 14 {
      IconIsKebabCaseOfNameGroup7(b);
    } else if b.Ordinal() < 16 {
      IconIsKebabCaseOfNameGroup8(b);
    } else if b.Ordinal() < 18 {
      IconIsKebabCaseOfNameGroup9(b);
    } else if b.Ordinal() < 20 {
      IconIsKebabCaseOfNameGroup10(b);
    } else if b.Ordinal() < 22 {
      IconIsKebabCaseOfNameGroup11(b);
    } else if b.Ordinal() < 24 {
      IconIsKebabCaseOfNameGroup12(b);
    } else if b.Ordinal() < 26 {
      IconIsKebabCaseOfNameGroup13(b);
    } else {
      IconIsKebabCaseOfNameGroup14(b);
    }
  }

  /** IconIsKebabCaseOfName for the constant at ordinal 0. */
  lemma IconIsKebabCaseOfNameGroup0(b: Bi)
    requires b.Ordinal() == 0
    ensures b.Icon() == KebabCase(b.ConstantName())
  {
    match b
    case ArrowLeftCircle => {}
    case _ =>
  }

  /** IconIsKebabCaseOfName for the constant at ordinal 1. */
  lemma IconIsKebabCaseOfNameGroup1(b: Bi)
    requires b.Ordinal() == 1
    ensures b.Icon() == KebabCase(b.ConstantName())
  {
    match b
    case ArrowLeftSquareFill => KebabCaseOfLongestName();
    case _ =>
  }

  /** IconIsKebabCaseOfName for the constants at ordinals 2 to 3. */
  lemma IconIsKebabCaseOfNameGroup2(b: Bi)
    requires 2 <= b.Ordinal() < 4
    ensures b.Icon() == KebabCase(b.ConstantName())
  {
    match b
    case ArrowRepeat => {}
    case Bank => {}
    case _ =>
  }

  /** IconIsKebabCaseOfName for the constants at ordinals 4 to 5. */
  lemma IconIsKebabCaseOfNameGroup3(b: Bi)
    requires 4 <= b.Ordinal() < 6
    ensures b.Icon() == KebabCase(b.ConstantName())
  {
    match b
    case BoxArrowInDown => {}
    case BoxArrowUp => {}
    case _ =>
  }

  /** IconIsKebabCaseOfName for the constants at ordinals 6 to 7. */
  lemma IconIsKebabCaseOfNameGroup4(b: Bi)
    requires 6 <= b.Ordinal() < 8
    ensures b.Icon() == KebabCase(b.ConstantName())
  {
    match b
    case Calculator => {}
    case CartX => {}
    case _ =>
  }

  /** IconIsKebabCaseOfName for the constants at ordinals 8 to 9. */
  lemma IconIsKebabCaseOfNameGroup5(b: Bi)
    requires 8 <= b.Ordinal() < 10
    ensures b.Icon() == KebabCase(b.ConstantName())
  {
    match b
    case CashCoin => {}
    case CashStack => {}
    case _ =>
  }

  /** IconIsKebabCaseOfName for the constants at ordinals 10 to 11. */
  lemma IconIsKebabCaseOfNameGroup6(b: Bi)
    requires 10 <= b.Ordinal() < 12
    ensures b.Icon() == KebabCase(b.ConstantName())
  {
    match b
    case Clock => {}
    case CurrencyDollar => {}
    case _ =>
  }

  /** IconIsKebabCaseOfName for the constants at ordinals 12 to 13. */
  lemma IconIsKebabCaseOfNameGroup7(b: Bi)
    requires 12 <= b.Ordinal() < 14
    ensures b.Icon() == KebabCase(b.ConstantName())
  {
    match b
    case DatabaseFillX => {}
    case DoorOpen => {}
    case _ =>
  }

  /** IconIsKebabCaseOfName for the constants at ordinals 14 to 15. */
  lemma IconIsKebabCaseOfNameGroup8(b: Bi)
    requires 14 <= b.Ordinal() < 16
    ensures b.Icon() == KebabCase(b.ConstantName())
  {
    match b
    case Gear => {}
    case Grid => {}
    case _ =>
  }

  /** IconIsKebabCaseOfName for the constants at ordinals 16 to 17. */
  lemma IconIsKebabCaseOfNameGroup9(b: Bi)
    requires 16 <= b.Ordinal() < 18
    ensures b.Icon() == KebabCase(b.ConstantName())
  {
    match b
    case Lock => {}
    case Palette => {}
    case _ =>
  }

  /** IconIsKebabCaseOfName for the constants at ordinals 18 to 19. */
  lemma IconIsKebabCaseOfNameGroup10(b: Bi)
    requires 18 <= b.Ordinal() < 20
    ensures b.Icon() == KebabCase(b.ConstantName())
  {
    match b
    case Percent => {}
    case PersonAdd => {}
    case _ =>
  }

  /** IconIsKebabCaseOfName for the constants at ordinals 20 to 21. */
  lemma IconIsKebabCaseOfNameGroup11(b: Bi)
    requires 20 <= b.Ordinal() < 22
    ensures b.Icon() == KebabCase(b.ConstantName())
  {
    match b
    case Printer => {}
    case Receipt => {}
    case _ =>
  }

  /** IconIsKebabCaseOfName for the constants at ordinals 22 to 23. */
  lemma IconIsKebabCaseOfNameGroup12(b: Bi)
    requires 22 <= b.Ordinal() < 24
    ensures b.Icon() == KebabCase(b.ConstantName())
  {
    match b
    case Rulers => {}
    case Save => {}
    case _ =>
  }

  /** IconIsKebabCaseOfName for the constants at ordinals 24 to 25. */
  lemma IconIsKebabCaseOfNameGroup13(b: Bi)
    requires 24 <= b.Ordinal() < 26
    ensures b.Icon() == KebabCase(b.ConstantName())
  {
    match b
    case Trash => {}
    case UpcScan => {}
    case _ =>
  }

  /** IconIsKebabCaseOfName for the constant at ordinal 26. */
  lemma IconIsKebabCaseOfNameGroup14(b: Bi)
    requires b.Ordinal() == 26
    ensures b.Icon() == KebabCase(b.ConstantName())
  {
    match b
    case XCircle => {}
    case _ =>
  }

  /** Fragments use only lower-case letters and hyphens. */
  lemma IconIsFragment(b: Bi)
    ensures IsFragment(b.Icon())
  {
    if b.Ordinal() < 4 {
      IconIsFragmentGroup0(b);
    } else if b.Ordinal() < 8 {
      IconIsFragmentGroup1(b);
    } else if b.Ordinal() < 12 {
      IconIsFragmentGroup2(b);
    } else if b.Ordinal() < 16 {
      IconIsFragmentGroup3(b);
    } else if b.Ordinal() < 20 {
      IconIsFragmentGroup4(b);
    } else if b.Ordinal() < 24 {
      IconIsFragmentGroup5(b);
    } else {
      IconIsFragmentGroup6(b);
    }
  }

  /** IconIsFragment for the constants at ordinals 0 to 3. */
  lemma IconIsFragmentGroup0(b: Bi)
    requires 0 <= b.Ordinal() < 4
    ensures IsFragment(b.Icon())
  {
    match b
    case ArrowLeftCircle => {}
    case ArrowLeftSquareFill => {}
    case ArrowRepeat => {}
    case Bank => {}
    case _ =>
  }

  /** IconIsFragment for the constants at ordinals 4 to 7. */
  lemma IconIsFragmentGroup1(b: Bi)
    requires 4 <= b.Ordinal() < 8
    ensures IsFragment(b.Icon())
  {
    match b
    case BoxArrowInDown => {}
    case BoxArrowUp => {}
    case Calculator => {}
    case CartX => {}
    case _ =>
  }

  /** IconIsFragment for the constants at ordinals 8 to 11. */
  lemma IconIsFragmentGroup2(b: Bi)
    requires 8 <= b.Ordinal() < 12
    ensures IsFragment(b.Icon())
  {
    match b
    case CashCoin => {}
    case CashStack => {}
    case Clock => {}
    case CurrencyDollar => {}
    case _ =>
  }

  /** IconIsFragment for the constants at ordinals 12 to 15. */
  lemma IconIsFragmentGroup3(b: Bi)
    requires 12 <= b.Ordinal() < 16
    ensures IsFragment(b.Icon())
  {
    match b
    case DatabaseFillX => {}
    case DoorOpen => {}
    case Gear => {}
    case Grid => {}
    case _ =>
  }

  /** IconIsFragment for the constants at ordinals 16 to 19. */
  lemma IconIsFragmentGroup4(b: Bi)
    requires 16 <= b.Ordinal() < 20
    ensures IsFragment(b.Icon())
  {
    match b
    case Lock => {}
    case Palette => {}
    case Percent => {}
    case PersonAdd => {}
    case _ =>
  }

  /** IconIsFragment for the constants at ordinals 20 to 23. */
  lemma IconIsFragmentGroup5(b: Bi)
    requires 20 <= b.Ordinal() < 24
    ensures IsFragment(b.Icon())
  {
    match b
    case Printer => {}
    case Receipt => {}
    case Rulers => {}
    case Save => {}
    case _ =>
  }

  /** IconIsFragment for the constants at ordinals 24 to 26. */
  lemma IconIsFragmentGroup6(b: Bi)
    requires 24 <= b.Ordinal() < 27
    ensures IsFragment(b.Icon())
  {
    match b
    case Trash => {}
    case UpcScan => {}
    case XCircle => {}
    case _ =>
  }

  /** getIcon has a left inverse, so a fragment determines its constant. */
  lemma FromIconOfIcon(b: Bi)
    ensures FromIcon(b.Icon()) == Some(b)
  {
    match b
    case ArrowLeftCircle => {}
    case ArrowLeftSquareFill => {}
    case ArrowRepeat => {}
    case Bank => {}
    case BoxArrowInDown => {}
    case BoxArrowUp => {}
    case Calculator => {}
    case CartX => {}
    case CashCoin => {}
    case CashStack => {}
    case Clock => {}
    case CurrencyDollar => {}
    case DatabaseFillX => {}
    case DoorOpen => {}
    case Gear => {}
    case Grid => {}
    case Lock => {}
    case Palette => {}
    case Percent => {}
    case PersonAdd => {}
    case Printer => {}
    case Receipt => {}
    case Rulers => {}
    case Save => {}
    case Trash => {}
    case UpcScan => {}
    case XCircle => {}
  }

  /** Distinct constants have distinct fragments, so icon to file is injective. */
  lemma IconInjective(a: Bi, b: Bi)
    ensures a.Icon() == b.Icon() ==> a == b
  {
    FromIconOfIcon(a);
    FromIconOfIcon(b);
  }

  /** The enumeration is closed: Values lists each of the 27 constants exactly once, at its ordinal. */
  lemma ValuesListsEveryConstant(b: Bi)
    ensures |Values| == 27
    ensures b.Ordinal() < 27 && Values[b.Ordinal()] == b
  {
  }

  /** The constant at each position of Values has that position as its ordinal. */
  lemma OrdinalOfValues(i: nat)
    requires i < |Values|
    ensures Values[i].Ordinal() == i
  {
  }

  /** No constant appears twice in Values. */
  lemma ValuesDistinct(i: nat, j: nat)
    requires i < |Values| && j < |Values| && Values[i] == Values[j]
    ensures i == j
  {
    OrdinalOfValues(i);
    OrdinalOfValues(j);
  }
}
