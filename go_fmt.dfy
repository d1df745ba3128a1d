/**
 * The part of Go's fmt package the code relies on: formatting with string
 * operands, as fmt.Sprintf, Context.String and fmt.Errorf use it.
 */
module GoFmt {

  /** fmt.Sprintf with string operands: %v and %s take the next operand, %% is a percent sign. */
  function Sprintf(format: string, args: seq<string>): (s: string)
    decreases |format|
  {
    if format == [] then Extra(args)
    else if format[0] != '%' then [format[0]] + Sprintf(format[1..], args)
    else if |format| == 1 then "%!(NOVERB)" + Extra(args)
    else
      var verb := format[1];
      if verb == '%' then "%" + Sprintf(format[2..], args)
      else if args == [] then "%!" + [verb] + "(MISSING)" + Sprintf(format[2..], args)
      else if verb == 'v' || verb == 's' then args[0] + Sprintf(format[2..], args[1..])
      else "%!" + [verb] + "(string=" + args[0] + ")" + Sprintf(format[2..], args[1..])
  }

  /** Operands left over after the format is used up, as fmt reports them. */
  function Extra(args: seq<string>): string {
    if args == [] then "" else "%!(EXTRA " + ExtraList(args) + ")"
  }

  function ExtraList(args: seq<string>): string
    requires args != []
    decreases |args|
  {
    if |args| == 1 then "string=" + args[0] else "string=" + args[0] + ", " + ExtraList(args[1..])
  }

  /** A format without '%' and without operands is written as it is. */
  lemma {:induction false} SprintfPlain(format: string)
    requires '%' !in format
    ensures Sprintf(format, []) == format
    decreases |format|
  {
    if format != [] {
      assert '%' !in format[1..] by {
        assert forall c :: c in format[1..] ==> c in format;
      }
      SprintfPlain(format[1..]);
    }
  }

  /** A format that ends in a lone '%', with no other '%', gets "%!(NOVERB)" in place of it. */
  lemma {:induction false} SprintfTrailingPercent(before: string)
    requires '%' !in before
    ensures Sprintf(before + "%", []) == before + "%!(NOVERB)"
    decreases |before|
  {
    var f := before + "%";
    if before == [] {
      assert f == "%";
    } else {
      assert '%' !in before[1..] by {
        assert forall c :: c in before[1..] ==> c in before;
      }
      assert f[0] == before[0] && f[1..] == before[1..] + "%";
      SprintfTrailingPercent(before[1..]);
      assert [before[0]] + (before[1..] + "%!(NOVERB)") == before + "%!(NOVERB)";
    }
  }

  /** A format with one %v and no other '%' splices its single operand in place of the verb. */
  lemma {:induction false} SprintfOneOperand(before: string, after: string, arg: string)
    requires '%' !in before && '%' !in after
    ensures Sprintf(before + "%v" + after, [arg]) == before + arg + after
    decreases |before|
  {
    var format := before + "%v" + after;
    if before == [] {
      assert format[0] == '%' && format[1] == 'v' && format[2..] == after && |format| >= 2;
      assert [arg][1..] == [];
      assert Sprintf(format, [arg]) == arg + Sprintf(after, []);
      SprintfPlain(after);
    } else {
      assert format[0] == before[0] && format[1..] == before[1..] + "%v" + after;
      assert '%' !in before[1..] by {
        assert forall c :: c in before[1..] ==> c in before;
      }
      SprintfOneOperand(before[1..], after, arg);
    }
  }
}
