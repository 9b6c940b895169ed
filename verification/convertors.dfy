/** The value converters (`ArgConvertors::base_convertor<T>`) and cleaners (`clean<T>`):
    raw text in, a converted value or null out; and what a cleaner releases. */
module Convertors {
  import opened Wrappers
  import opened CharConv

  datatype IntKind = Short | Int | Long | LongLong | UShort | UInt | ULong | ULongLong
  datatype FloatKind = Float | Double | LongDouble

  /** The declared parameter types: the built-in specialisations, plus user types that
      bring their own `base_convertor` specialisation. */
  datatype ValueType =
    | CharT
    | UCharT
    | IntT(kind: IntKind)
    | FloatT(fkind: FloatKind)
    | StringT
    | StringViewT
    | CustomT(name: string)

  /** A converted value, i.e. what a non-null slot points to. */
  datatype Value =
    | CharVal(c: char)
    | IntVal(n: int)
    | FloatVal(x: real)
    | StrVal(s: string)
    | ViewVal(s: string)
    | CustomVal(data: string)

  /** What the model leaves to the platform and to user code: the width of `long`, the
      floating-point `from_chars`, and the user's converters and cleaners. */
  datatype Platform = Platform(
    longIs64: bool,
    parseFloat: (FloatKind, string) -> Option<real>,
    customConvert: (string, string) -> Option<Value>,
    customCleaners: set<string>)

  predicate IsSigned(k: IntKind)
  {
    k in {Short, Int, Long, LongLong}
  }

  function MinValue(k: IntKind, longIs64: bool): int
  {
    match k
    case Short => -0x8000
    case Int => -0x8000_0000
    case Long => if longIs64 then -0x8000_0000_0000_0000 else -0x8000_0000
    case LongLong => -0x8000_0000_0000_0000
    case _ => 0
  }

  function MaxValue(k: IntKind, longIs64: bool): int
  {
    match k
    case Short => 0x7FFF
    case Int => 0x7FFF_FFFF
    case Long => if longIs64 then 0x7FFF_FFFF_FFFF_FFFF else 0x7FFF_FFFF
    case LongLong => 0x7FFF_FFFF_FFFF_FFFF
    case UShort => 0xFFFF
    case UInt => 0xFFFF_FFFF
    case ULong => if longIs64 then 0xFFFF_FFFF_FFFF_FFFF else 0xFFFF_FFFF
    case ULongLong => 0xFFFF_FFFF_FFFF_FFFF
  }

  /** Types with a specialisation in the library itself. */
  predicate IsBuiltIn(ty: ValueType)
  {
    !ty.CustomT?
  }

  /** `v` is a value of type `ty`: the right shape, and for integers inside the type's range. */
  predicate HasType(env: Platform, v: Value, ty: ValueType)
  {
    match ty
    case CharT => v.CharVal?
    case UCharT => v.CharVal?
    case IntT(k) => v.IntVal? && MinValue(k, env.longIs64) <= v.n <= MaxValue(k, env.longIs64)
    case FloatT(_) => v.FloatVal?
    case StringT => v.StrVal? && v.s != []
    case StringViewT => v.ViewVal? && v.s != []
    case CustomT(_) => true
  }

  /** `base_convertor<T>(src)`. */
  function BaseConvert(env: Platform, ty: ValueType, src: string): (r: Option<Value>)
    ensures IsBuiltIn(ty) && src == [] ==> r.None?
    ensures IsBuiltIn(ty) && r.Some? ==> HasType(env, r.value, ty)
    ensures (ty.CharT? || ty.UCharT?) && src != [] ==> r == Some(CharVal(src[0]))
    ensures ty.StringT? && src != [] ==> r == Some(StrVal(src))
    ensures ty.StringViewT? && src != [] ==> r == Some(ViewVal(src))
    ensures ty.CustomT? ==> r == env.customConvert(ty.name, src)
    ensures ty.IntT? && r.Some? ==> StartsWithNumber(src, IsSigned(ty.kind))
  {
    match ty
    case CharT => if src == [] then None else Some(CharVal(src[0]))
    case UCharT => if src == [] then None else Some(CharVal(src[0]))
    case IntT(k) =>
      if src == [] then None
      else (
        match FromChars(src, IsSigned(k), MinValue(k, env.longIs64), MaxValue(k, env.longIs64))
        case Parsed(v, _) => Some(IntVal(v))
        case _ => None)
    case FloatT(fk) =>
      if src == [] then None
      else (
        match env.parseFloat(fk, src)
        case Some(x) => Some(FloatVal(x))
        case None => None)
    case StringT => if src == [] then None else Some(StrVal(src))
    case StringViewT => if src == [] then None else Some(ViewVal(src))
    case CustomT(name) => env.customConvert(name, src)
  }

  /** Integer round trip: a value of the type, written in decimal and followed by text that
      does not start with a digit, converts back to itself (trailing text is ignored). */
  lemma IntegerRoundTrip(env: Platform, k: IntKind, v: int, tail: string)
    requires MinValue(k, env.longIs64) <= v <= MaxValue(k, env.longIs64)
    requires tail == [] || !IsDigit(tail[0])
    ensures BaseConvert(env, IntT(k), Show(v) + tail) == Some(IntVal(v))
  {
    ShowThenParse(v, tail, IsSigned(k), MinValue(k, env.longIs64), MaxValue(k, env.longIs64));
  }

  /** A value outside the type's range converts to null, never to a wrapped value. */
  lemma IntegerOutOfRange(env: Platform, k: IntKind, v: int, tail: string)
    requires v < MinValue(k, env.longIs64) || v > MaxValue(k, env.longIs64)
    requires tail == [] || !IsDigit(tail[0])
    ensures BaseConvert(env, IntT(k), Show(v) + tail) == None
  {
    ShowOutOfRange(v, tail, IsSigned(k), MinValue(k, env.longIs64), MaxValue(k, env.longIs64));
  }

  /** Unsigned types reject a leading `-`; no integer type accepts `+` or leading blanks. */
  lemma IntegerSignRules(env: Platform, k: IntKind, s: string)
    requires |s| > 0 && (s[0] == '+' || s[0] == ' ' || (s[0] == '-' && !IsSigned(k)))
    ensures BaseConvert(env, IntT(k), s) == None
  {
  }

  /** A cleaner specialisation exists: the built-in list, or one the user supplied. */
  predicate HasCleaner(env: Platform, ty: ValueType)
  {
    IsBuiltIn(ty) || ty.name in env.customCleaners
  }

  /** `clean<T>(ptr)`: the value it deletes, if any. A null slot is a no-op, and the generic
      `clean<T>` of a user type without a specialisation deletes nothing. */
  function Clean(env: Platform, ty: ValueType, slot: Option<Value>): (freed: Option<Value>)
    ensures slot.None? ==> freed.None?
    ensures freed.Some? ==> freed == slot
    ensures HasCleaner(env, ty) ==> freed == slot
    ensures !HasCleaner(env, ty) ==> freed.None?
  {
    if HasCleaner(env, ty) then slot else None
  }
}
