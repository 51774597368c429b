/** `LuaFlexValue` (`src/lua/traits.rs`): a setting that is either a value of the expected
    type or a function producing one. The call of such a function, with the conversion of its
    result, is an oracle. */
module Flex {
  import opened Wrappers
  import opened Guest

  /** The five instances of `impl_flex!`: `bool`, `String`, `i64`, `f64` and `Table`. */
  datatype Kind = BoolKind | StringKind | IntegerKind | FloatKind | TableKind

  /** The variant each instance accepts as it is. */
  predicate Accepts(k: Kind, v: Value)
  {
    match k
    case BoolKind => v.Boolean?
    case StringKind => v.Str?
    case IntegerKind => v.Integer?
    case FloatKind => v.Number?
    case TableKind => v.Table?
  }

  /** The Rust type name in the conversion error (`stringify!($ty)`). */
  function RustType(k: Kind): string
  {
    match k
    case BoolKind => "bool"
    case StringKind => "String"
    case IntegerKind => "i64"
    case FloatKind => "f64"
    case TableKind => "Table<'lua>"
  }

  /** The expected-type word of each instance as the macro invocations write it: the `f64`
      instance repeats the word of the `i64` one, so no instance names numbers. */
  function ExpectAsWritten(k: Kind): (w: string)
    ensures w != "number"
  {
    match k
    case BoolKind => "bool"
    case StringKind => "string"
    case IntegerKind => "integer"
    case FloatKind => "integer"
    case TableKind => "table"
  }

  /** As written, a rejected `f64` setting is reported as if an integer had been expected, the
      same words as for an `i64` setting. */
  lemma FloatExpectationAsWritten()
    ensures ExpectAsWritten(FloatKind) == ExpectAsWritten(IntegerKind) == "integer"
  {
  }

  /** The expected-type word, with the `f64` instance naming numbers; every other instance
      keeps the word it is written with. */
  function Expect(k: Kind): (w: string)
    ensures w != ExpectAsWritten(k) <==> k == FloatKind
  {
    match k
    case FloatKind => "number"
    case _ => ExpectAsWritten(k)
  }

  /** Every instance names a different expected type. */
  lemma ExpectDistinct(k1: Kind, k2: Kind)
    requires k1 != k2
    ensures Expect(k1) != Expect(k2)
  {
    assert Expect(k1)[0] != Expect(k2)[0] || |Expect(k1)| != |Expect(k2)|;
  }

  /** The message of the conversion error, built from an expected-type word; the word is read
      back from its place after `expected `. */
  function Message(word: string): (m: string)
    ensures |m| == 2 * |word| + 34 && m[9..9 + |word|] == word
  {
    "expected " + word + " or function returning a " + word
  }

  /** The message of the conversion error as the source builds it. */
  function ExpectationAsWritten(k: Kind): string
  {
    Message(ExpectAsWritten(k))
  }

  /** The message of the conversion error with `number` for the `f64` instance; it differs
      from the message as written for that instance only. */
  function Expectation(k: Kind): (m: string)
    ensures m != ExpectationAsWritten(k) <==> k == FloatKind
  {
    assert Message(Expect(k)) == ExpectationAsWritten(k) ==> Expect(k) == ExpectAsWritten(k) by {
      if Message(Expect(k)) == ExpectationAsWritten(k) {
        MessageInjective(Expect(k), ExpectAsWritten(k));
      }
    }
    Message(Expect(k))
  }

  /** Two messages are the same only when their words are. */
  lemma MessageInjective(w1: string, w2: string)
    requires Message(w1) == Message(w2)
    ensures w1 == w2
  {
    var n := |"expected "|;
    assert |w1| == |w2|;
    assert Message(w1)[n..n + |w1|] == w1;
    assert Message(w2)[n..n + |w2|] == w2;
  }

  /** Calling guest function `fid` with `args` and converting its result for instance `k`. */
  type Call = (nat, seq<Value>, Kind) -> Result<Value, LuaError>

  /** One conversion with the given message for a refused value. */
  function Convert(k: Kind, v: Value, args: seq<Value>, call: Call, message: string): Result<Value, LuaError>
  {
    if Accepts(k, v) then Ok(v)
    else if v.Function? then call(v.fid, args, k)
    else Err(FromLuaConversionError(TypeName(v), RustType(k), Some(message)))
  }

  /** `flex_value(lua, value, args)`: an accepted variant as it is, a function's converted
      result, or a conversion error naming the value's type and the expected one, in the
      words the source gives it. */
  function FlexValue(k: Kind, v: Value, args: seq<Value>, call: Call): (r: Result<Value, LuaError>)
    ensures Accepts(k, v) ==> r == Ok(v)
    ensures v.Function? ==> r == call(v.fid, args, k)
    ensures !Accepts(k, v) && !v.Function? ==>
      r == Err(FromLuaConversionError(TypeName(v), RustType(k), Some(ExpectationAsWritten(k))))
  {
    Convert(k, v, args, call, ExpectationAsWritten(k))
  }

  /** As written, a boolean given for an `f64` setting is refused with the message of an
      integer setting. */
  lemma FloatRefusalAsWritten(args: seq<Value>, call: Call)
    ensures FlexValue(FloatKind, Boolean(true), args, call) ==
      Err(FromLuaConversionError("boolean", "f64", Some(Message("integer"))))
    ensures FlexValue(FloatKind, Boolean(true), args, call).error.message ==
      FlexValue(IntegerKind, Boolean(true), args, call).error.message
  {
  }

  /** `flex_value` with the message the `f64` instance evidently means: `number`. */
  function FlexValueIntended(k: Kind, v: Value, args: seq<Value>, call: Call): (r: Result<Value, LuaError>)
    ensures Accepts(k, v) ==> r == Ok(v)
    ensures v.Function? ==> r == call(v.fid, args, k)
    ensures !Accepts(k, v) && !v.Function? ==>
      r == Err(FromLuaConversionError(TypeName(v), RustType(k), Some(Expectation(k))))
  {
    Convert(k, v, args, call, Expectation(k))
  }

  /** The corrected conversion differs from the source's only in the message of a refused
      `f64` setting. */
  lemma IntendedAgrees(k: Kind, v: Value, args: seq<Value>, call: Call)
    ensures k != FloatKind || Accepts(k, v) || v.Function? ==>
      FlexValueIntended(k, v, args, call) == FlexValue(k, v, args, call)
    ensures k == FloatKind && !Accepts(k, v) && !v.Function? ==>
      FlexValueIntended(k, v, args, call) != FlexValue(k, v, args, call)
  {
    if k == FloatKind && !Accepts(k, v) && !v.Function? {
      if Expectation(k) == ExpectationAsWritten(k) {
        MessageInjective(Expect(k), ExpectAsWritten(k));
      }
    }
  }

  /** With the corrected message, refusals for different instances never read the same. */
  lemma IntendedRefusalsDistinct(k1: Kind, k2: Kind, v1: Value, v2: Value, args: seq<Value>, call: Call)
    requires k1 != k2
    requires !Accepts(k1, v1) && !v1.Function? && !Accepts(k2, v2) && !v2.Function?
    ensures FlexValueIntended(k1, v1, args, call).error.message != FlexValueIntended(k2, v2, args, call).error.message
  {
    ExpectDistinct(k1, k2);
    if Expectation(k1) == Expectation(k2) {
      MessageInjective(Expect(k1), Expect(k2));
    }
  }

  /** `maybe_flex_value`: `flex_value(...).ok()`, a value exactly when the conversion
      succeeds, and then the same value. */
  function MaybeFlexValue(k: Kind, v: Value, args: seq<Value>, call: Call): (r: Option<Value>)
    ensures r.Some? <==> FlexValue(k, v, args, call).Ok?
    ensures r.Some? ==> r.value == FlexValue(k, v, args, call).value
  {
    match FlexValue(k, v, args, call)
    case Ok(x) => Some(x)
    case Err(_) => None
  }

  /** A value that is not a function never reaches the call: the arguments and the callee
      play no part in the result. */
  lemma NonFunctionIgnoresCall(k: Kind, v: Value, args: seq<Value>, args': seq<Value>, call: Call, call': Call)
    requires !v.Function?
    ensures FlexValue(k, v, args, call) == FlexValue(k, v, args', call')
  {
  }

  /** Only the exact variant is accepted: an integer is not an `f64` setting and a number is
      not an `i64` setting. */
  lemma NumbersNotInterchanged(i: int, f: Float, args: seq<Value>, call: Call)
    ensures FlexValue(FloatKind, Integer(i), args, call).Err?
    ensures FlexValue(IntegerKind, Number(f), args, call).Err?
  {
  }

  /** A plain string is returned unchanged, whatever the arguments. */
  lemma StringUnchanged(s: string, args: seq<Value>, call: Call)
    ensures FlexValue(StringKind, Str(s), args, call) == Ok(Str(s))
  {
  }

  /** The result of a successful conversion is of the instance's variant whenever the oracle
      returns values of that variant. */
  lemma ResultAccepted(k: Kind, v: Value, args: seq<Value>, call: Call)
    requires forall f: nat, a: seq<Value> :: call(f, a, k).Ok? ==> Accepts(k, call(f, a, k).value)
    ensures FlexValue(k, v, args, call).Ok? ==> Accepts(k, FlexValue(k, v, args, call).value)
  {
  }
}
