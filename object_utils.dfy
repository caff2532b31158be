/**
 * Empire-db's ObjectUtils: emptiness, null-tolerant comparison and the conversions
 * with defaults, over a closed set of Java values.
 */
module ObjectUtils {
  import opened Wrappers
  import opened JavaText

  /** A Java `int`. */
  type Int32 = x: int | MinInt <= x <= MaxInt

  /** A Java `long`. */
  type Int64 = x: int | MinLong <= x <= MaxLong

  /**
   * The objects the helpers are applied to: Java's null, the NO_VALUE marker, and
   * String, Integer, Long, Boolean and enum objects. All enum constants are taken to
   * belong to one enum type, so equal ordinals mean the same constant. Object
   * identity (`==` in Java) is value equality here.
   */
  datatype Value =
    | Null
    | NoValue
    | Str(s: string)
    | Int(i: Int32)
    | Long(l: Int64)
    | Bool(b: bool)
    | Enum(name: string, ordinal: nat)

  /** The exception a failed conversion throws (NumberFormatException). */
  datatype ConversionError = NumberFormat(text: string)

  /** isEmpty: null, NO_VALUE and the empty string have no value. */
  function IsEmpty(v: Value): (r: bool)
    ensures r <==> v in {Null, NoValue, Str("")}
  {
    match v
    case Null => true
    case NoValue => true
    case Str(s) => |s| == 0
    case _ => false
  }

  /** Object.toString of a non-null value; an enum constant prints its name. */
  function ToString(v: Value): string
    requires v != Null
  {
    match v
    case NoValue => "[NO-VALUE]"
    case Str(s) => s
    case Int(i) => DecimalString(i)
    case Long(l) => DecimalString(l)
    case Bool(b) => if b then "true" else "false"
    case Enum(name, _) => name
  }

  predicate IsNumber(v: Value) {
    v.Int? || v.Long?
  }

  /** The `int` with the same low 32 bits as `x` (Java's narrowing of a long). */
  function Wrap32(x: int): (r: Int32)
    ensures (r - x) % 0x1_0000_0000 == 0
  {
    var m := x % 0x1_0000_0000;
    if m > MaxInt then m - 0x1_0000_0000 else m
  }

  /** Number.intValue: a Long keeps only its low 32 bits. */
  function IntValue(v: Value): (r: Int32)
    requires IsNumber(v)
    ensures v.Int? ==> r == v.i
    ensures v.Long? && MinInt <= v.l <= MaxInt ==> r == v.l
  {
    if v.Int? then v.i else Wrap32(v.l)
  }

  /** Number.longValue. */
  function LongValue(v: Value): Int64
    requires IsNumber(v)
  {
    if v.Int? then v.i else v.l
  }

  /** Both values are objects of the same class. */
  predicate SameClass(a: Value, b: Value) {
    || (a.NoValue? && b.NoValue?)
    || (a.Str? && b.Str?)
    || (a.Int? && b.Int?)
    || (a.Long? && b.Long?)
    || (a.Bool? && b.Bool?)
    || (a.Enum? && b.Enum?)
  }

  /**
   * compareEqual(Object, Object). Objects of one class are compared with compareTo
   * (an enum by its ordinal); an Integer and a Long by their numeric values; an enum
   * and a number by ordinal, an enum and a string by name; anything else by toString.
   */
  function CompareEqual(o1: Value, o2: Value): bool {
    if o1 == o2 then true
    else if IsEmpty(o1) then IsEmpty(o2)
    else if IsEmpty(o2) then IsEmpty(o1)
    else if SameClass(o1, o2) then
      if o1.Enum? then o1.ordinal == o2.ordinal else o1 == o2
    else if IsNumber(o1) && IsNumber(o2) then LongValue(o1) == LongValue(o2)
    else if o1.Enum? then
      if IsNumber(o2) then o1.ordinal == IntValue(o2) else o2 == Str(o1.name)
    else if o2.Enum? then
      if IsNumber(o1) then o2.ordinal == IntValue(o1) else o1 == Str(o2.name)
    else ToString(o1) == ToString(o2)
  }

  /** A value is equal to itself. */
  lemma CompareEqualIdentical(v: Value)
    ensures CompareEqual(v, v)
  {
  }

  /** Any two empty values compare equal, whichever kind of emptiness each has. */
  lemma EmptyValuesCompareEqual(a: Value, b: Value)
    requires IsEmpty(a) && IsEmpty(b)
    ensures CompareEqual(a, b)
  {
  }

  /** An empty value never equals a value that is not empty. */
  lemma EmptyNeverEqualsNonEmpty(a: Value, b: Value)
    requires IsEmpty(a) != IsEmpty(b)
    ensures !CompareEqual(a, b) && !CompareEqual(b, a)
  {
  }

  /** The order of the arguments does not matter. */
  lemma CompareEqualSymmetric(a: Value, b: Value)
    ensures CompareEqual(a, b) == CompareEqual(b, a)
  {
  }

  /**
   * A string compares equal to an Integer only when it is that number's decimal text,
   * so converting the string gives the number back.
   */
  lemma {:induction false} EqualTextConvertsBack(s: string, i: Int32)
    requires CompareEqual(Str(s), Int(i))
    ensures ToInteger(Str(s)) == Ok(i)
  {
    assert s == DecimalString(i);
    DecimalRoundTrip(i, MinInt, MaxInt);
  }

  /** The elements of a possibly null array; a null array has none. */
  function Elements(a: array?<Value>): (s: seq<Value>)
    reads a
    ensures a == null ==> s == []
    ensures a != null ==> s == a[..]
  {
    if a == null then [] else a[..]
  }

  /** Two sequences of equal length whose elements pairwise compare equal. */
  predicate ElementwiseEqual(s1: seq<Value>, s2: seq<Value>) {
    |s1| == |s2| && forall i :: 0 <= i < |s1| ==> CompareEqual(s1[i], s2[i])
  }

  /** Element-wise equality is reflexive and symmetric, as compareEqual is. */
  lemma ElementwiseEqualReflexiveSymmetric(s1: seq<Value>, s2: seq<Value>)
    ensures ElementwiseEqual(s1, s1)
    ensures ElementwiseEqual(s1, s2) == ElementwiseEqual(s2, s1)
  {
    forall i | 0 <= i < |s1| && |s1| == |s2| {
      CompareEqualSymmetric(s1[i], s2[i]);
    }
  }

  /**
   * compareEqual(Object[], Object[]): a null array counts as an array of length 0;
   * arrays of different lengths differ; otherwise every pair must compare equal.
   */
  method CompareEqualArrays(first: array?<Value>, second: array?<Value>) returns (equal: bool)
    ensures equal <==> ElementwiseEqual(Elements(first), Elements(second))
  {
    var len1 := if first != null then first.Length else 0;
    var len2 := if second != null then second.Length else 0;
    if len1 != len2 {
      return false;
    }
    for i := 0 to len1
      invariant forall j :: 0 <= j < i ==> CompareEqual(first[j], second[j])
    {
      if !CompareEqual(first[i], second[i]) {
        return false;
      }
    }
    return true;
  }

  /** coalesce: the preferred value unless it is null. NO_VALUE and "" are kept. */
  function Coalesce(preferred: Value, alternative: Value): (r: Value)
    ensures r in {preferred, alternative}
    ensures r == Null <==> preferred == Null && alternative == Null
    ensures preferred != Null ==> r == preferred
  {
    if preferred != Null then preferred else alternative
  }

  /**
   * toInteger: 0 for an empty value, intValue for a number, otherwise Integer.parseInt
   * of the value's text, which throws for text that is not an int.
   */
  function ToInteger(v: Value): (r: Result<Int32, ConversionError>)
    ensures IsEmpty(v) ==> r == Ok(0)
    ensures v.Int? ==> r == Ok(v.i)
    ensures v.Bool? ==> r.Err?
  {
    if IsEmpty(v) then Ok(0)
    else if IsNumber(v) then Ok(IntValue(v))
    else
      match ParseInt(ToString(v))
      case Some(n) => Ok(n)
      case None => Err(NumberFormat(ToString(v)))
  }

  /** getInteger(v, defValue): the default for an empty or unconvertible value. */
  function GetInteger(v: Value, defValue: Int32): Int32 {
    if IsEmpty(v) then defValue
    else
      match ToInteger(v)
      case Ok(n) => n
      case Err(_) => defValue
  }

  /**
   * The decimal text of a long outside the int range gives getInteger's default, since
   * parseInt rejects it, while getLong reads it back.
   */
  lemma GetIntegerOverflowDefaults(n: Int64, defValue: Int32, longDefault: Int64)
    requires n < MinInt || n > MaxInt
    ensures GetInteger(Str(DecimalString(n)), defValue) == defValue
    ensures GetLong(Str(DecimalString(n)), longDefault) == n
  {
    DecimalParse(n, MinInt, MaxInt);
    DecimalParse(n, MinLong, MaxLong);
  }

  /** The decimal text of an int, and the Integer itself, convert back to that int. */
  lemma {:induction false} GetIntegerRoundTrip(n: Int32, defValue: Int32)
    ensures GetInteger(Str(DecimalString(n)), defValue) == n
    ensures GetInteger(Int(n), defValue) == n
  {
    DecimalRoundTrip(n, MinInt, MaxInt);
  }

  /**
   * A Long is narrowed, not rejected: getInteger keeps its low 32 bits, so it is the
   * Long itself when in the int range, and 2^32 becomes 0.
   */
  lemma GetIntegerNarrowsLong(l: Int64, defValue: Int32)
    ensures (GetInteger(Long(l), defValue) - l) % 0x1_0000_0000 == 0
    ensures MinInt <= l <= MaxInt ==> GetInteger(Long(l), defValue) == l
    ensures GetInteger(Long(0x1_0000_0000), defValue) == 0
  {
  }

  /** toLong: 0 for an empty value, longValue for a number, else Long.parseLong. */
  function ToLong(v: Value): (r: Result<Int64, ConversionError>)
    ensures IsEmpty(v) ==> r == Ok(0)
    ensures IsNumber(v) ==> r == Ok(LongValue(v))
    ensures v.Bool? ==> r.Err?
  {
    if IsEmpty(v) then Ok(0)
    else if IsNumber(v) then Ok(LongValue(v))
    else
      match ParseLong(ToString(v))
      case Some(n) => Ok(n)
      case None => Err(NumberFormat(ToString(v)))
  }

  /** getLong(v, defValue): the default for an empty or unconvertible value. */
  function GetLong(v: Value, defValue: Int64): Int64 {
    if IsEmpty(v) then defValue
    else
      match ToLong(v)
      case Ok(n) => n
      case Err(_) => defValue
  }

  /** The decimal text of a long converts back to it; every int is a long. */
  lemma {:induction false} GetLongRoundTrip(n: Int64, m: Int32, defValue: Int64)
    ensures GetLong(Str(DecimalString(n)), defValue) == n
    ensures GetLong(Int(m), defValue) == m
    ensures IsEmpty(Str("")) && GetLong(Str(""), defValue) == defValue
  {
    DecimalRoundTrip(n, MinLong, MaxLong);
  }

  /**
   * getBoolean: false when empty, a Boolean's own value, "intValue != 0" for a number,
   * and otherwise whether the text is "Y" or "true", ignoring case.
   */
  function GetBoolean(v: Value): bool {
    if IsEmpty(v) then false
    else
      match v
      case Bool(b) => b
      case Int(_) => IntValue(v) != 0
      case Long(_) => IntValue(v) != 0
      case Str(_) => ReadsAsTrue(ToString(v))
      case Enum(_, _) => ReadsAsTrue(ToString(v))
      case Null => false
      case NoValue => false
  }

  /** The text test of getBoolean. */
  predicate ReadsAsTrue(text: string) {
    EqualsIgnoreCase(text, "Y") || EqualsIgnoreCase(text, "true")
  }

  /**
   * The texts getBoolean reads as true, character by character: "y", "Y", and "true"
   * in any of its sixteen case spellings.
   */
  lemma GetBooleanSpellings(s: string)
    ensures GetBoolean(Str(s))
      <==> s == "y" || s == "Y"
           || (&& |s| == 4 && (s[0] == 't' || s[0] == 'T') && (s[1] == 'r' || s[1] == 'R')
               && (s[2] == 'u' || s[2] == 'U') && (s[3] == 'e' || s[3] == 'E'))
  {
    if s != "" {
      GetBooleanOfText(s);
      var u := ToUpper(s);
      if |s| == 1 {
        assert u == "Y" <==> u[0] == 'Y';
        assert s == "y" || s == "Y" <==> s[0] == 'y' || s[0] == 'Y';
      } else if |s| == 4 {
        assert u == "TRUE" <==> u[0] == 'T' && u[1] == 'R' && u[2] == 'U' && u[3] == 'E';
      }
    }
  }

  /** The only texts read as true are y, Y and the sixteen spellings of "true". */
  lemma GetBooleanOfText(s: string)
    requires s != ""
    ensures GetBoolean(Str(s)) <==> ToUpper(s) == "Y" || ToUpper(s) == "TRUE"
  {
    assert ToUpper("Y") == "Y";
    assert ToUpper("true") == "TRUE";
  }

  /** The text of a Boolean reads back as the same Boolean. */
  lemma GetBooleanRoundTrip(b: bool)
    ensures GetBoolean(Str(ToString(Bool(b)))) == b
  {
    if !b {
      assert |ToUpper("false")| != |ToUpper("true")| && |ToUpper("false")| != |ToUpper("Y")|;
    }
  }

  /** A number is read through intValue, so a Long of 2^32 reads as false. */
  lemma GetBooleanNarrowsLong()
    ensures GetBoolean(Long(0x1_0000_0000)) == false
    ensures GetBoolean(Long(0x1_0000_0001)) == true
  {
  }

  /** What toStringArray puts in place of one element. */
  function StringForm(v: Value, defValue: Option<string>): Option<string> {
    if v == Null then defValue else Some(ToString(v))
  }

  /**
   * toStringArray: null for a null array; otherwise a new array of the same length
   * holding each element's text, and the default where the element is null.
   */
  method ToStringArray(objArray: array?<Value>, defValue: Option<string>)
    returns (strArray: array?<Option<string>>)
    ensures objArray == null <==> strArray == null
    ensures strArray != null ==> fresh(strArray) && strArray.Length == objArray.Length
    ensures strArray != null ==>
      forall i :: 0 <= i < objArray.Length ==> strArray[i] == StringForm(objArray[i], defValue)
  {
    if objArray == null {
      return null;
    }
    strArray := new Option<string>[objArray.Length];
    for i := 0 to objArray.Length
      invariant forall j :: 0 <= j < i ==> strArray[j] == StringForm(objArray[j], defValue)
    {
      if objArray[i] != Null {
        strArray[i] := Some(ToString(objArray[i]));
      } else {
        strArray[i] := defValue;
      }
    }
  }

  /**
   * contains: false for a null array, otherwise whether some element is the item
   * itself or equals it.
   */
  method Contains(items: array?<Value>, item: Value) returns (found: bool)
    ensures found <==> items != null && exists i :: 0 <= i < items.Length && items[i] == item
  {
    if items == null {
      return false;
    }
    for i := 0 to items.Length
      invariant forall j :: 0 <= j < i ==> items[j] != item
    {
      if items[i] == item {
        return true;
      }
      if items[i] != Null && items[i] == item {
        return true;
      }
    }
    return false;
  }

  /** The eight primitive types and void. */
  datatype PrimitiveKind =
    | BooleanKind | ByteKind | ShortKind | CharKind | IntKind | LongKind | FloatKind | DoubleKind
    | VoidKind

  /**
   * The classes the assignment table speaks of: primitives, their wrappers, Number and
   * its big-number subclasses, String, Object, and any other class extending Object
   * directly. Interfaces are not part of this universe.
   */
  datatype JavaClass =
    | Primitive(kind: PrimitiveKind)
    | BooleanClass | ByteClass | ShortClass | CharacterClass | IntegerClass | LongClass
    | FloatClass | DoubleClass
    | NumberClass | BigIntegerClass | BigDecimalClass
    | StringClass | ObjectClass
    | OtherClass(name: string)

  /** Number and the classes that extend it. */
  predicate IsNumberClass(c: JavaClass) {
    c in {NumberClass, ByteClass, ShortClass, IntegerClass, LongClass, FloatClass, DoubleClass,
          BigIntegerClass, BigDecimalClass}
  }

  /**
   * Class.isAssignableFrom: a class accepts itself; Object accepts every class that is
   * not primitive; Number accepts its subclasses; nothing else accepts anything.
   */
  predicate IsAssignableFrom(target: JavaClass, source: JavaClass) {
    || target == source
    || (!source.Primitive? && target == ObjectClass)
    || (target == NumberClass && IsNumberClass(source))
  }

  /** getPrimitiveWrapper: the wrapper class of a primitive; null for void and for classes. */
  function PrimitiveWrapper(c: JavaClass): (r: Option<JavaClass>)
    ensures r.Some? <==> c.Primitive? && c.kind != VoidKind
    ensures r.Some? ==> !r.value.Primitive? && r.value != ObjectClass
  {
    match c
    case Primitive(BooleanKind) => Some(BooleanClass)
    case Primitive(FloatKind) => Some(FloatClass)
    case Primitive(LongKind) => Some(LongClass)
    case Primitive(IntKind) => Some(IntegerClass)
    case Primitive(ShortKind) => Some(ShortClass)
    case Primitive(ByteKind) => Some(ByteClass)
    case Primitive(DoubleKind) => Some(DoubleClass)
    case Primitive(CharKind) => Some(CharacterClass)
    case _ => None
  }

  /** No two primitives share a wrapper. */
  lemma PrimitiveWrapperInjective(a: JavaClass, b: JavaClass)
    requires PrimitiveWrapper(a).Some? && PrimitiveWrapper(a) == PrimitiveWrapper(b)
    ensures a == b
  {
  }

  /** The wrappers of the six numeric primitives extend Number; boolean's and char's do not. */
  lemma PrimitiveWrapperNumeric(k: PrimitiveKind)
    requires k != VoidKind
    ensures IsNumberClass(PrimitiveWrapper(Primitive(k)).value)
      <==> k !in {BooleanKind, CharKind}
  {
  }

  /**
   * isAssignmentCompatible: plain assignability first, then again after replacing a
   * primitive source and a primitive target by their wrappers (void gives up), then
   * any two numeric classes, then a Character (or char) into a String.
   */
  function IsAssignmentCompatible(target: JavaClass, source: JavaClass): bool {
    if IsAssignableFrom(target, source) then true
    else if source.Primitive? && PrimitiveWrapper(source).None? then false
    else
      var source' := if source.Primitive? then PrimitiveWrapper(source).value else source;
      if source.Primitive? && IsAssignableFrom(target, source') then true
      else if target.Primitive? && PrimitiveWrapper(target).None? then false
      else
        var target' := if target.Primitive? then PrimitiveWrapper(target).value else target;
        if target.Primitive? && IsAssignableFrom(target', source') then true
        else if IsAssignableFrom(NumberClass, target') && IsAssignableFrom(NumberClass, source') then true
        else source' == CharacterClass && target' == StringClass
  }

  /** A class seen through boxing: a primitive's wrapper, a class itself; void has none. */
  function Boxed(c: JavaClass): Option<JavaClass> {
    if c.Primitive? then PrimitiveWrapper(c) else Some(c)
  }

  /**
   * The assignment table in one statement: the same class, or both boxable and then
   * assignable, both numeric, or Character into String.
   */
  lemma AssignmentCompatibleSpec(target: JavaClass, source: JavaClass)
    ensures IsAssignmentCompatible(target, source) <==>
      || target == source
      || (&& Boxed(target).Some? && Boxed(source).Some?
          && (|| IsAssignableFrom(Boxed(target).value, Boxed(source).value)
              || (IsNumberClass(Boxed(target).value) && IsNumberClass(Boxed(source).value))
              || (Boxed(source).value == CharacterClass && Boxed(target).value == StringClass)))
  {
  }

  /** Every numeric class or primitive accepts every other; a char goes into a String. */
  lemma NumbersAndCharactersCompatible(target: JavaClass, source: JavaClass)
    ensures Boxed(target).Some? && Boxed(source).Some?
      && IsNumberClass(Boxed(target).value) && IsNumberClass(Boxed(source).value)
      ==> IsAssignmentCompatible(target, source)
    ensures IsAssignmentCompatible(StringClass, CharacterClass)
    ensures IsAssignmentCompatible(StringClass, Primitive(CharKind))
    ensures !IsAssignmentCompatible(CharacterClass, StringClass)
    ensures !IsAssignmentCompatible(IntegerClass, Primitive(BooleanKind))
  {
    AssignmentCompatibleSpec(target, source);
  }
}
