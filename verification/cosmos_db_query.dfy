/** The public entry points: a query template with values, an interpolated string, and a
    lambda whose body is an interpolated string. Each hands its template to the
    placeholder compiler; the resulting text and parameter table are what the source
    copies into a `QueryDefinition`, parameter by parameter in table order. */
module CosmosDbQuery {
  import opened Wrappers
  import opened Templates
  import opened Expressions
  import opened QueryBuilderHelper
  import DefaultFieldNameResolver
  import Strings

  /** A C# `FormattableString`: its composite format and its argument values. */
  datatype FormattableString = FormattableString(format: seq<FormatItem>, arguments: seq<Value>)

  /** `Convert(string query, params object[] values)`: the compiled template. */
  method Convert(query: seq<Token>, values: seq<Value>) returns (r: Result<Query, Error>)
    ensures r == Compiled(query, values)
  {
    r := BuildQuery(query, values);
  }

  /** The placeholders `{0}`, `{1}`, ... for `n` arguments. */
  function NumberedPlaceholders(n: nat): (r: seq<Token>)
    ensures |r| == n && forall i :: 0 <= i < n ==> r[i] == Ph(i)
  {
    seq(n, i requires 0 <= i < n => Ph(i))
  }

  /** The format read as a query template: each chunk is literal text and each hole
      `{i}` is the placeholder `{i}`. */
  function HolesAsPlaceholders(format: seq<FormatItem>): seq<Token>
  {
    seq(|format|, j requires 0 <= j < |format| => if format[j].Chunk? then Lit(format[j].text) else Ph(format[j].index))
  }

  /** Formatting with the numbered placeholders as arguments turns every hole back into
      the placeholder of the same number. */
  lemma FormatNumbered(format: seq<FormatItem>, n: nat)
    requires HolesInRange(format, n)
    ensures Format(format, NumberedPlaceholders(n)) == Success(HolesAsPlaceholders(format))
  {
    var phs := NumberedPlaceholders(n);
    var r := Format(format, phs).value;
    forall j | 0 <= j < |format|
      ensures r[j] == HolesAsPlaceholders(format)[j]
    {
      if format[j].Hole? {
        assert r[j] == phs[format[j].index];
      }
    }
    assert r == HolesAsPlaceholders(format);
  }

  /** `Convert(FormattableString)`: re-number the holes as placeholders and delegate.
      A hole beyond the arguments fails with the format error at the leftmost such hole;
      otherwise the result is the format, read as a template, compiled against the
      arguments. An interpolated string (every argument used once, in order) never fails
      and binds its arguments in order, a collection's elements in turn. */
  method ConvertFormattable(formattable: FormattableString) returns (r: Result<Query, Error>)
    ensures var format, args := formattable.format, formattable.arguments;
            !HolesInRange(format, |args|) ==>
              && r.Failure? && r.error.FormatError? && r.error.index >= |args|
              && exists j :: 0 <= j < |format| && format[j] == Hole(r.error.index) && HolesInRange(format[..j], |args|)
    ensures HolesInRange(formattable.format, |formattable.arguments|) ==>
              r == Compiled(HolesAsPlaceholders(formattable.format), formattable.arguments)
    ensures Holes(formattable.format) == Range(|formattable.arguments|) ==>
              r.Success? && r.value.parameters == Table(Flatten(formattable.arguments))
  {
    var args := formattable.arguments;
    match Format(formattable.format, NumberedPlaceholders(|args|)) {
      case Failure(e) =>
        r := Failure(e);
        if Holes(formattable.format) == Range(|args|) {
          FormatInOrder(formattable.format, NumberedPlaceholders(|args|));
        }
      case Success(rewrittenQuery) =>
        FormatNumbered(formattable.format, |args|);
        r := Convert(rewrittenQuery, args);
        if Holes(formattable.format) == Range(|args|) {
          InterpolatedArgumentsBindInOrder(formattable);
        }
    }
  }

  lemma {:induction false} NumberedPlaceholdersInOrder(n: nat)
    ensures Placeholders(NumberedPlaceholders(n)) == Range(n)
    decreases n
  {
    if n > 0 {
      var prev := NumberedPlaceholders(n - 1);
      NumberedPlaceholdersInOrder(n - 1);
      assert NumberedPlaceholders(n) == prev + [Ph(n - 1)] by {
        assert forall i :: 0 <= i < n ==> NumberedPlaceholders(n)[i] == (prev + [Ph(n - 1)])[i];
      }
      PlaceholdersSnoc(prev, Ph(n - 1));
      assert Range(n) == Range(n - 1) + [n - 1] by {
        assert forall i :: 0 <= i < n ==> Range(n)[i] == (Range(n - 1) + [n - 1])[i];
      }
    }
  }

  /** An interpolated string (every argument used once, in order) never fails, and binds
      its arguments in order, a collection's elements in turn, to `@p0`, `@p1`, ...: the
      same value interpolated twice is bound twice. */
  lemma InterpolatedArgumentsBindInOrder(formattable: FormattableString)
    requires Holes(formattable.format) == Range(|formattable.arguments|)
    ensures Compiled(HolesAsPlaceholders(formattable.format), formattable.arguments).Success?
    ensures Compiled(HolesAsPlaceholders(formattable.format), formattable.arguments).value.parameters
         == Table(Flatten(formattable.arguments))
  {
    var phs := NumberedPlaceholders(|formattable.arguments|);
    FormatInOrder(formattable.format, phs);
    NumberedPlaceholdersInOrder(|formattable.arguments|);
    FormatNumbered(formattable.format, |formattable.arguments|);
    SlotsInIndexOrder(HolesAsPlaceholders(formattable.format), formattable.arguments);
  }

  /** `ConvertLambdaExpression`: extract the query from the lambda's body with the given
      field name resolver, or with the default camel-casing resolver when none is given. */
  method ConvertLambdaExpression(body: Node, fieldNameResolver: Option<Node -> Option<string>>,
                                 evaluate: Node -> Value)
    returns (r: Result<Query, Error>)
    ensures fieldNameResolver.Some? ==> r == Parameterized(body, fieldNameResolver.value, evaluate)
    ensures fieldNameResolver.None? ==> r == Parameterized(body, DefaultFieldNameResolver.DefaultResolve, evaluate)
  {
    var resolve := if fieldNameResolver.Some? then fieldNameResolver.value else DefaultFieldNameResolver.DefaultResolve;
    r := ParameterizeExpression(body, resolve, evaluate);
  }

  /** With the default resolver, an interpolated member chain over a named lambda
      parameter is inlined as its camel-cased JSON path and binds no parameter. */
  lemma FieldReferenceInlined(args: seq<Node>, j: nat, root: string, members: seq<MemberInfo>)
    requires j < |args| && root != ""
    requires args[j] == DefaultFieldNameResolver.Access(root, members)
    ensures Rewritten(args, DefaultFieldNameResolver.DefaultResolve)[j]
         == Lit(Strings.Join(".", [root] + DefaultFieldNameResolver.JsonNames(true, members)))
  {
    DefaultFieldNameResolver.AccessResolves(true, root, members);
    RewrittenArguments(args, DefaultFieldNameResolver.DefaultResolve, _ => Null, j);
  }
}
