/** JSON values as the service reads and writes them, with the accessors that may throw. */
module Json {

  datatype Value =
    | Null
    | Bool(flag: bool)
    | Number(number: int)
    | Text(text: string)
    | Array(items: seq<Value>)
    | Object(members: map<string, Value>)

  /** A call that returned, or one that threw. */
  datatype Attempt<+T> = Returned(value: T) | Threw {
    predicate IsFailure() { Threw? }

    function PropagateFailure<U>(): Attempt<U>
      requires Threw?
    {
      Threw
    }

    function Extract(): T
      requires Returned?
    {
      value
    }
  }

  /** value[key] on a constant value: absent members read as null, and only objects and null have members. */
  function Member(v: Value, key: string): Attempt<Value> {
    match v
    case Object(members) => Returned(if key in members then members[key] else Null)
    case Null => Returned(Null)
    case _ => Threw
  }

  /** Null, [] and {} are empty; text never is, not even "". */
  predicate IsEmpty(v: Value) {
    v.Null? || (v.Array? && |v.items| == 0) || (v.Object? && |v.members| == 0)
  }

  function DecimalDigit(n: nat): char
    requires n < 10
  {
    ('0' as int + n) as char
  }

  function Decimal(n: int): string
    decreases n < 0, if n < 0 then -n else n
  {
    if n < 0 then "-" + Decimal(-n)
    else if n < 10 then [DecimalDigit(n)]
    else Decimal(n / 10) + [DecimalDigit(n % 10)]
  }

  /** The value of a row of digits, read from the left. */
  function DigitsValue(text: string): int {
    if |text| == 0 then 0
    else DigitsValue(text[..|text| - 1]) * 10 + (text[|text| - 1] as int - '0' as int)
  }

  /** An optional minus sign, and digits. */
  function ReadDecimal(text: string): int {
    if |text| > 0 && text[0] == '-' then -DigitsValue(text[1..]) else DigitsValue(text)
  }

  predicate AllDigits(text: string) {
    forall i :: 0 <= i < |text| ==> '0' <= text[i] <= '9'
  }

  lemma {:induction false} NaturalReadsBack(n: nat)
    ensures |Decimal(n)| > 0 && AllDigits(Decimal(n)) && DigitsValue(Decimal(n)) == n
    ensures Decimal(n)[0] == '0' <==> n == 0
    decreases n
  {
    if n < 10 {
      assert Decimal(n)[..0] == [];
    } else {
      NaturalReadsBack(n / 10);
      assert Decimal(n)[..|Decimal(n)| - 1] == Decimal(n / 10);
    }
  }

  /** A printed number reads as itself: digits without a leading zero, after a minus sign when it is negative. */
  lemma DecimalReadsBack(n: int)
    ensures ReadDecimal(Decimal(n)) == n
    ensures n >= 0 ==> AllDigits(Decimal(n))
    ensures n < 0 ==> |Decimal(n)| > 1 && Decimal(n)[0] == '-' && AllDigits(Decimal(n)[1..]) && Decimal(n)[1] != '0'
    ensures n > 0 ==> |Decimal(n)| > 0 && Decimal(n)[0] != '0'
    ensures n == 0 ==> Decimal(n) == "0"
  {
    if n < 0 {
      NaturalReadsBack(-n);
      assert Decimal(n)[1..] == Decimal(-n);
    } else {
      NaturalReadsBack(n);
    }
  }

  function AsString(v: Value): Attempt<string> {
    match v
    case Null => Returned("")
    case Text(s) => Returned(s)
    case Bool(b) => Returned(if b then "true" else "false")
    case Number(n) => Returned(Decimal(n))
    case _ => Threw
  }

  function AsBool(v: Value): Attempt<bool> {
    match v
    case Null => Returned(false)
    case Bool(b) => Returned(b)
    case Number(n) => Returned(n != 0)
    case _ => Threw
  }

  /** A number outside the range of int throws. */
  function AsInt(v: Value): Attempt<int> {
    match v
    case Null => Returned(0)
    case Bool(b) => Returned(if b then 1 else 0)
    case Number(n) => if -0x8000_0000 <= n < 0x8000_0000 then Returned(n) else Threw
    case _ => Threw
  }

  /** The text of a member. */
  function MemberText(v: Value, key: string): Attempt<string> {
    var member :- Member(v, key);
    AsString(member)
  }
}
