/**
 * Concrete reports matching the expectations of the assertion tests, and the
 * input that shows a function's type lost in `_assertType`'s message.
 */
module AssertExamples {
  import opened Numbers
  import opened Values
  import opened Assert
  import opened AssertLaws

  /** `assertType(123, "string")` (test/assert.js). */
  lemma WrongTypeExample()
    ensures AssertType(DefaultMessages, Num(FromInt(123)), Str("string"), Undefined, Undefined)
      == Failed("Wrong type for 'argument', expected string, got number", Num(FromInt(2)))
  {
    TypeMessageWith(Num(FromInt(123)), Str("string"), Undefined, Undefined, "argument", "string", "number");
    NumberLine();
  }

  /** `assertType(f, "string")` for a function `f`: the message names the type "undefined". */
  lemma FunctionTypeLostExample()
    ensures AssertType(DefaultMessages, Func, Str("string"), Undefined, Undefined)
      == Failed("Wrong type for 'argument', expected string, got undefined", Num(FromInt(2)))
  {
    TypeMessageWith(Func, Str("string"), Undefined, Undefined, "argument", "string", "undefined");
    UndefinedLine();
  }

  /** The corrected driver names it "function". */
  lemma FunctionTypeShownExample()
    ensures AssertTypeIntended(DefaultMessages, Func, Str("string"), Undefined, Undefined)
      == Failed("Wrong type for 'argument', expected string, got function", Num(FromInt(2)))
  {
    TypeIntendedMessageWith(Func, Str("string"), Undefined, Undefined, "argument", "string", "function");
    FunctionLine();
  }

  /*
   * The three sentences below, each written out as one literal, equal their pieces
   * joined; each equality is its own lemma to keep the examples above small.
   */
  lemma NumberLine()
    ensures "Wrong type for '" + "argument" + "', expected " + "string" + ", got " + "number"
      == "Wrong type for 'argument', expected string, got number"
  {
  }

  lemma UndefinedLine()
    ensures "Wrong type for '" + "argument" + "', expected " + "string" + ", got " + "undefined"
      == "Wrong type for 'argument', expected string, got undefined"
  {
  }

  lemma FunctionLine()
    ensures "Wrong type for '" + "argument" + "', expected " + "string" + ", got " + "function"
      == "Wrong type for 'argument', expected string, got function"
  {
  }
}
