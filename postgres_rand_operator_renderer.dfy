/**
 * `PostgresRandOperatorRenderer`: renders the RAND operator for PostgreSQL/Greenplum. With no
 * argument it is `RANDOM()`; with bounds `low, high` it is an integer drawn from
 * `[low, high]`, produced by filling a fixed template with two successive `String.replace`
 * calls. The SQL skin and operator definition passed to `prettyPrint` are never read, so they
 * are not parameters here.
 */
module PostgresRandOperatorRenderer {
  import opened Results
  import opened JavaLang

  /** The exception `prettyPrint` throws, with its message. */
  datatype RenderingException = RenderingException(message: string)

  const RANDOM_CALL := "RANDOM()"
  const LOW_BOUND := "low_bound"
  const HIGH_BOUND := "hight_bound"
  const ARITY_MESSAGE := "RAND take 0 or 2 parameters only"

  // The literal text of the two-argument template between its placeholders.
  const OPEN := "FLOOR("
  const PLUS_RANDOM := "  + RANDOM() * ("
  const MINUS := " - "
  const PLUS_ONE := " + 1))"

  /** The bounded expression with `low` and `high` placed verbatim in their slots. */
  function BoundedRandom(low: string, high: string): string {
    OPEN + (low + (PLUS_RANDOM + (high + (MINUS + (low + PLUS_ONE)))))
  }

  /**
   * The template `prettyPrint` fills: the bounded expression with the placeholder names in the
   * slots, "FLOOR(low_bound  + RANDOM() * (hight_bound - low_bound + 1))".
   */
  const BOUNDED_TEMPLATE := BoundedRandom(LOW_BOUND, HIGH_BOUND)

  /** Where the bounds sit in `BoundedRandom`: each one can be read back from its slot. */
  lemma BoundedRandomSlots(low: string, high: string)
    ensures |BoundedRandom(low, high)| == 2 * |low| + |high| + 31
    ensures BoundedRandom(low, high)[6..6 + |low|] == low
    ensures BoundedRandom(low, high)[22 + |low|..22 + |low| + |high|] == high
    ensures BoundedRandom(low, high)[25 + |low| + |high|..25 + 2 * |low| + |high|] == low
  {
  }

  /** `prettyPrint(skin, opDef, args)`, dispatching on the number of arguments. */
  function PrettyPrint(args: seq<string>): (r: Result<string, RenderingException>)
    ensures r.Success? <==> |args| == 0 || |args| == 2
    ensures r.Failure? ==> r.error.message == ARITY_MESSAGE
  {
    if |args| == 0 then
      Success(RANDOM_CALL)
    else if |args| == 2 then
      var withLow := ReplaceAll(BOUNDED_TEMPLATE, LOW_BOUND, args[0]);
      var withHigh := ReplaceAll(withLow, HIGH_BOUND, args[1]);
      Success(withHigh)
    else
      Failure(RenderingException(ARITY_MESSAGE))
  }

  /** With no argument the operator is PostgreSQL's bare `RANDOM()`. */
  lemma NoArgumentIsRandom()
    ensures PrettyPrint([]) == Success("RANDOM()")
  {
  }

  /**
   * The first replacement puts the low bound into both of its slots. The template text around
   * the slots has no 'l', so no occurrence of "low_bound" starts outside a slot, and the inserted
   * text is not searched again.
   */
  lemma FirstPass(low: string)
    ensures ReplaceAll(BOUNDED_TEMPLATE, LOW_BOUND, low) == BoundedRandom(low, HIGH_BOUND)
  {
    var middle := PLUS_RANDOM + (HIGH_BOUND + MINUS);
    calc {
      ReplaceAll(BOUNDED_TEMPLATE, LOW_BOUND, low);
      { assert BOUNDED_TEMPLATE == OPEN + (LOW_BOUND + (middle + (LOW_BOUND + PLUS_ONE))); }
      ReplaceAll(OPEN + (LOW_BOUND + (middle + (LOW_BOUND + PLUS_ONE))), LOW_BOUND, low);
      { ReplaceAllSkip(OPEN, LOW_BOUND + (middle + (LOW_BOUND + PLUS_ONE)), LOW_BOUND, low); }
      OPEN + ReplaceAll(LOW_BOUND + (middle + (LOW_BOUND + PLUS_ONE)), LOW_BOUND, low);
      { ReplaceAllLeading(middle + (LOW_BOUND + PLUS_ONE), LOW_BOUND, low); }
      OPEN + (low + ReplaceAll(middle + (LOW_BOUND + PLUS_ONE), LOW_BOUND, low));
      { ReplaceAllSkip(middle, LOW_BOUND + PLUS_ONE, LOW_BOUND, low); }
      OPEN + (low + (middle + ReplaceAll(LOW_BOUND + PLUS_ONE, LOW_BOUND, low)));
      { ReplaceAllLeading(PLUS_ONE, LOW_BOUND, low); }
      OPEN + (low + (middle + (low + ReplaceAll(PLUS_ONE, LOW_BOUND, low))));
      { ReplaceAllSkip(PLUS_ONE, [], LOW_BOUND, low); assert PLUS_ONE + [] == PLUS_ONE; }
      OPEN + (low + (middle + (low + PLUS_ONE)));
      { assert middle + (low + PLUS_ONE) == PLUS_RANDOM + (HIGH_BOUND + (MINUS + (low + PLUS_ONE))); }
      BoundedRandom(low, HIGH_BOUND);
    }
  }

  /**
   * The second replacement fills the high slot with `high`, and also rewrites every
   * "hight_bound" inside the two copies of the low bound. No occurrence can straddle a copy's
   * edges: the text before each copy has no 'h' and the text after it starts with a space.
   */
  lemma SecondPass(low: string, high: string)
    ensures ReplaceAll(BoundedRandom(low, HIGH_BOUND), HIGH_BOUND, high)
         == BoundedRandom(ReplaceAll(low, HIGH_BOUND, high), high)
  {
    var low' := ReplaceAll(low, HIGH_BOUND, high);
    var rest := PLUS_RANDOM + (HIGH_BOUND + (MINUS + (low + PLUS_ONE)));
    calc {
      ReplaceAll(BoundedRandom(low, HIGH_BOUND), HIGH_BOUND, high);
      ReplaceAll(OPEN + (low + rest), HIGH_BOUND, high);
      { ReplaceAllSkip(OPEN, low + rest, HIGH_BOUND, high); }
      OPEN + ReplaceAll(low + rest, HIGH_BOUND, high);
      { SecondPassLow(low, rest, high); }
      OPEN + (low' + ReplaceAll(rest, HIGH_BOUND, high));
      { SecondPassAfterLow(low, high); }
      OPEN + (low' + (PLUS_RANDOM + (high + (MINUS + (low' + PLUS_ONE)))));
    }
  }

  /** The first copy of the low bound is rewritten on its own, since the text after it starts with a space. */
  lemma SecondPassLow(low: string, rest: string, high: string)
    requires rest == PLUS_RANDOM + (HIGH_BOUND + (MINUS + (low + PLUS_ONE)))
    ensures ReplaceAll(low + rest, HIGH_BOUND, high) == ReplaceAll(low, HIGH_BOUND, high) + ReplaceAll(rest, HIGH_BOUND, high)
  {
    assert rest[0] == ' ';
    ReplaceAllSplit(low, rest, HIGH_BOUND, high);
  }

  /** The part of the second replacement after the first copy of the low bound. */
  lemma SecondPassAfterLow(low: string, high: string)
    ensures ReplaceAll(PLUS_RANDOM + (HIGH_BOUND + (MINUS + (low + PLUS_ONE))), HIGH_BOUND, high)
         == PLUS_RANDOM + (high + (MINUS + (ReplaceAll(low, HIGH_BOUND, high) + PLUS_ONE)))
  {
    calc {
      ReplaceAll(PLUS_RANDOM + (HIGH_BOUND + (MINUS + (low + PLUS_ONE))), HIGH_BOUND, high);
      { ReplaceAllSkip(PLUS_RANDOM, HIGH_BOUND + (MINUS + (low + PLUS_ONE)), HIGH_BOUND, high); }
      PLUS_RANDOM + ReplaceAll(HIGH_BOUND + (MINUS + (low + PLUS_ONE)), HIGH_BOUND, high);
      { ReplaceAllLeading(MINUS + (low + PLUS_ONE), HIGH_BOUND, high); }
      PLUS_RANDOM + (high + ReplaceAll(MINUS + (low + PLUS_ONE), HIGH_BOUND, high));
      { ReplaceAllSkip(MINUS, low + PLUS_ONE, HIGH_BOUND, high); }
      PLUS_RANDOM + (high + (MINUS + ReplaceAll(low + PLUS_ONE, HIGH_BOUND, high)));
      { ReplaceAllSplit(low, PLUS_ONE, HIGH_BOUND, high);
        ReplaceAllSkip(PLUS_ONE, [], HIGH_BOUND, high);
        assert PLUS_ONE + [] == PLUS_ONE; }
      PLUS_RANDOM + (high + (MINUS + (ReplaceAll(low, HIGH_BOUND, high) + PLUS_ONE)));
    }
  }

  /**
   * What two arguments render to, for every pair: the bounded template with `high` verbatim in
   * its slot and, in both low slots, the low bound with each "hight_bound" in it replaced by
   * `high`. A "low_bound" inside either argument survives, since replaced text is not rescanned.
   */
  lemma TwoArgumentsRender(low: string, high: string)
    ensures PrettyPrint([low, high]) == Success(BoundedRandom(ReplaceAll(low, HIGH_BOUND, high), high))
  {
    FirstPass(low);
    SecondPass(low, high);
  }

  /** A low bound without "hight_bound" in it is substituted verbatim. */
  lemma TwoArgumentsClosedForm(low: string, high: string)
    requires !Contains(low, HIGH_BOUND)
    ensures PrettyPrint([low, high]) == Success(BoundedRandom(low, high))
  {
    TwoArgumentsRender(low, high);
    ReplaceAllNoMatch(low, HIGH_BOUND, high);
  }

  /** `BoundedRandom` keeps its arguments apart: a different low bound gives a different text. */
  lemma BoundedRandomInjective(low1: string, low2: string, high: string)
    requires BoundedRandom(low1, high) == BoundedRandom(low2, high)
    ensures low1 == low2
  {
    BoundedRandomSlots(low1, high);
    BoundedRandomSlots(low2, high);
  }

  /**
   * The two-argument output is the intended positional substitution exactly when the low bound
   * has no "hight_bound" in it, or the high bound is that very text.
   */
  lemma TwoArgumentsVerbatimIff(low: string, high: string)
    ensures PrettyPrint([low, high]) == Success(BoundedRandom(low, high))
        <==> !Contains(low, HIGH_BOUND) || high == HIGH_BOUND
  {
    TwoArgumentsRender(low, high);
    if Contains(low, HIGH_BOUND) && high != HIGH_BOUND {
      ReplaceAllChanges(low, HIGH_BOUND, high);
      if BoundedRandom(ReplaceAll(low, HIGH_BOUND, high), high) == BoundedRandom(low, high) {
        BoundedRandomInjective(ReplaceAll(low, HIGH_BOUND, high), low, high);
      }
    } else if !Contains(low, HIGH_BOUND) {
      ReplaceAllNoMatch(low, HIGH_BOUND, high);
    } else {
      ReplaceAllIdentity(low, HIGH_BOUND);
    }
  }

  /** An instance of the hazard: a low bound spelled "hight_bound" is overwritten by the high bound. */
  lemma SubstitutionHazard()
    ensures PrettyPrint([HIGH_BOUND, "10"]) == Success(BoundedRandom("10", "10"))
    ensures PrettyPrint([HIGH_BOUND, "10"]) != Success(BoundedRandom(HIGH_BOUND, "10"))
  {
    TwoArgumentsRender(HIGH_BOUND, "10");
    calc {
      ReplaceAll(HIGH_BOUND, HIGH_BOUND, "10");
      { assert HIGH_BOUND + [] == HIGH_BOUND; ReplaceAllLeading([], HIGH_BOUND, "10"); }
      "10" + ReplaceAll([], HIGH_BOUND, "10");
      "10" + [];
      "10";
    }
    BoundedRandomSlots(HIGH_BOUND, "10");
    BoundedRandomSlots("10", "10");
  }

  /**
   * Positional rendering, the behaviour the template evidently intends: the two bounds go
   * into their slots verbatim, whatever text they contain.
   */
  function RenderPositional(args: seq<string>): (r: Result<string, RenderingException>)
    ensures r.Success? <==> |args| == 0 || |args| == 2
    ensures r.Failure? ==> r.error.message == ARITY_MESSAGE
    ensures |args| == 2 ==> r.Success? && |r.value| == 2 * |args[0]| + |args[1]| + 31
    ensures |args| == 2 ==> r.value[6..6 + |args[0]|] == args[0]
    ensures |args| == 2 ==> r.value[22 + |args[0]|..22 + |args[0]| + |args[1]|] == args[1]
    ensures |args| == 2 ==> r.value[25 + |args[0]| + |args[1]|..25 + 2 * |args[0]| + |args[1]|] == args[0]
  {
    if |args| == 0 then
      Success(RANDOM_CALL)
    else if |args| == 2 then
      BoundedRandomSlots(args[0], args[1]);
      Success(BoundedRandom(args[0], args[1]))
    else
      Failure(RenderingException(ARITY_MESSAGE))
  }

  /** Positional rendering agrees with `prettyPrint` except on the inputs of the substitution hazard. */
  lemma PositionalAgreesWithPrettyPrint(args: seq<string>)
    ensures RenderPositional(args) == PrettyPrint(args)
        <==> |args| != 2 || !Contains(args[0], HIGH_BOUND) || args[1] == HIGH_BOUND
  {
    if |args| == 2 {
      TwoArgumentsVerbatimIff(args[0], args[1]);
    }
  }
}
