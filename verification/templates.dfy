/** The values, templates and results the query converter works on.

    A query template is a sequence of tokens: literal text and numbered placeholders
    (`{0}`, `{1}`, ... in the source's strings). A composite format string, as C#
    builds one for an interpolated string, is a sequence of literal chunks and
    argument holes. */
module Templates {
  import opened Wrappers
  import opened Strings

  /** A runtime value bound to a slot. Every `IEnumerable` that is neither a `string`
      nor a `byte[]` is a collection; any other object (numbers, booleans, GUIDs, ...)
      is a scalar, represented here by an integer. */
  datatype Value =
    | Null
    | Scalar(n: int)
    | Text(s: string)
    | Bytes(b: seq<bv8>)
    | Coll(items: seq<Value>)

  /** A piece of a query template: literal text, or a placeholder `{index}`. */
  datatype Token = Lit(text: string) | Ph(index: nat)

  /** A piece of a composite format string: literal text, or an argument hole `{index}`. */
  datatype FormatItem = Chunk(text: string) | Hole(index: nat)

  /** One bound query parameter. */
  datatype Parameter = Parameter(name: string, value: Value)

  /** The converter's output: final query text and the ordered parameter table. */
  datatype Query = Query(text: string, parameters: seq<Parameter>)

  /** The exceptions that escape the converter. */
  datatype Error =
    | NoParameterProvided(index: nat)   // ArgumentException from BuildQuery
    | InvalidOperation(message: string) // InvalidOperationException from ParameterizeExpression
    | FormatError(index: nat)           // FormatException from string.Format: hole beyond the arguments
    | MalformedCall                     // cast and index exceptions on an unexpected Create(...) call

  const NoParameterPrefix := "No parameter provided for index {"
  const NoParameterSuffix := "}."

  /** The message of the out-of-range exception, naming the missing index in braces. */
  function NoParameterMessage(index: nat): (r: string)
    ensures |r| == |NoParameterPrefix| + |NatToString(index)| + |NoParameterSuffix|
    ensures r[..|NoParameterPrefix|] == NoParameterPrefix
    ensures r[|NoParameterPrefix|..|r| - |NoParameterSuffix|] == NatToString(index)
    ensures r[|r| - |NoParameterSuffix|..] == NoParameterSuffix
  {
    NoParameterPrefix + NatToString(index) + NoParameterSuffix
  }

  /** The message names the missing index: different indices give different messages. */
  lemma NoParameterMessageNamesIndex(i: nat, j: nat)
    requires NoParameterMessage(i) == NoParameterMessage(j)
    ensures i == j
  {
    var m := NoParameterMessage(i);
    var lo, hi := |NoParameterPrefix|, |m| - |NoParameterSuffix|;
    assert NatToString(i) == m[lo..hi];
    assert NatToString(j) == NoParameterMessage(j)[lo..hi];
    NatToStringInjective(i, j);
  }

  /** The generated parameter name for counter value `k`: `@p0`, `@p1`, ... */
  function ParamName(k: nat): string
  {
    "@p" + NatToString(k)
  }

  /** A parameter name is `@p` followed by the decimal digits of its counter value. */
  lemma ParamNameDigits(k: nat)
    ensures |ParamName(k)| > 2 && ParamName(k)[..2] == "@p" && ParamName(k)[2..] == NatToString(k)
    ensures forall m :: 2 <= m < |ParamName(k)| ==> '0' <= ParamName(k)[m] <= '9'
  {
  }

  /** Different counter values give different parameter names. */
  lemma ParamNamesDistinct(j: nat, k: nat)
    requires j != k
    ensures ParamName(j) != ParamName(k)
  {
    if ParamName(j) == ParamName(k) {
      ParamNameDigits(j);
      ParamNameDigits(k);
      assert NatToString(j) == ParamName(j)[2..] == ParamName(k)[2..] == NatToString(k);
      NatToStringInjective(j, k);
    }
  }

  /** Every hole of `format` names one of `n` arguments. */
  predicate HolesInRange(format: seq<FormatItem>, n: nat)
  {
    forall j :: 0 <= j < |format| && format[j].Hole? ==> format[j].index < n
  }

  /** `string.Format(format, args)` where each argument is itself template text: chunks
      become literal text and hole `k` becomes `args[k]`. A hole beyond the arguments
      fails with a FormatException, at the first such hole from the left. */
  function Format(format: seq<FormatItem>, args: seq<Token>): (r: Result<seq<Token>, Error>)
    ensures r.Success? <==> HolesInRange(format, |args|)
    ensures r.Success? ==> |r.value| == |format|
    ensures r.Success? ==>
              forall j :: 0 <= j < |format| ==>
                r.value[j] == (if format[j].Chunk? then Lit(format[j].text) else args[format[j].index])
    ensures r.Failure? ==>
              && r.error.FormatError?
              && r.error.index >= |args|
              && exists j :: 0 <= j < |format| && format[j] == Hole(r.error.index) && HolesInRange(format[..j], |args|)
    decreases |format|
  {
    if format == [] then Success([])
    else
      var prefix := format[..|format| - 1];
      var last := format[|format| - 1];
      assert format == prefix + [last];
      match Format(prefix, args)
      case Failure(e) =>
        assert forall j :: 0 <= j < |prefix| ==> format[..j] == prefix[..j];
        Failure(e)
      case Success(done) =>
        if last.Chunk? then Success(done + [Lit(last.text)])
        else if last.index < |args| then Success(done + [args[last.index]])
        else Failure(FormatError(last.index))
  }

  /** The hole indices of a format string, left to right. */
  function Holes(format: seq<FormatItem>): seq<nat>
    decreases |format|
  {
    if format == [] then []
    else
      var last := format[|format| - 1];
      Holes(format[..|format| - 1]) + (if last.Hole? then [last.index] else [])
  }

  /** The placeholder indices of a template, left to right (repeats included). */
  function Placeholders(template: seq<Token>): seq<nat>
    decreases |template|
  {
    if template == [] then []
    else
      var last := template[|template| - 1];
      Placeholders(template[..|template| - 1]) + (if last.Ph? then [last.index] else [])
  }

  /** `0, 1, ..., n - 1`. */
  function Range(n: nat): (r: seq<nat>)
    ensures |r| == n && forall k :: 0 <= k < n ==> r[k] == k
  {
    seq(n, k => k)
  }

  /** The placeholder indices of one token. */
  function PlaceholderOf(t: Token): seq<nat>
  {
    if t.Ph? then [t.index] else []
  }

  /** The placeholder indices of the arguments named by `holes`, in that order. */
  function Gather(args: seq<Token>, holes: seq<nat>): seq<nat>
    decreases |holes|
  {
    if holes == [] then []
    else
      var h := holes[|holes| - 1];
      Gather(args, holes[..|holes| - 1]) + (if h < |args| then PlaceholderOf(args[h]) else [])
  }

  lemma PlaceholdersSnoc(template: seq<Token>, t: Token)
    ensures Placeholders(template + [t]) == Placeholders(template) + PlaceholderOf(t)
  {
    assert (template + [t])[..|template|] == template;
  }

  /** Each hole of a format string is listed by `Holes`. */
  lemma {:induction false} HoleListed(format: seq<FormatItem>, j: nat)
    requires j < |format| && format[j].Hole?
    ensures format[j].index in Holes(format)
    decreases |format|
  {
    var prefix := format[..|format| - 1];
    assert format == prefix + [format[|format| - 1]];
    if j < |prefix| {
      HoleListed(prefix, j);
    }
  }

  /** Formatting copies the placeholders of the arguments its holes name, hole by hole. */
  lemma {:induction false} FormatPlaceholders(format: seq<FormatItem>, args: seq<Token>)
    requires HolesInRange(format, |args|)
    ensures Placeholders(Format(format, args).value) == Gather(args, Holes(format))
    decreases |format|
  {
    if format != [] {
      var prefix := format[..|format| - 1];
      var last := format[|format| - 1];
      assert format == prefix + [last];
      assert HolesInRange(prefix, |args|);
      FormatPlaceholders(prefix, args);
      var done := Format(prefix, args).value;
      var item := if last.Chunk? then Lit(last.text) else args[last.index];
      assert Format(format, args).value == done + [item];
      PlaceholdersSnoc(done, item);
      var hs := Holes(prefix);
      if last.Hole? {
        assert Holes(format) == hs + [last.index];
        assert (hs + [last.index])[..|hs|] == hs;
      } else {
        assert Holes(format) == hs;
      }
    }
  }

  /** Naming arguments `0 .. k - 1` in order gathers the placeholders of the first `k` arguments. */
  lemma {:induction false} GatherRange(args: seq<Token>, k: nat)
    requires k <= |args|
    ensures Gather(args, Range(k)) == Placeholders(args[..k])
    decreases k
  {
    if k > 0 {
      GatherRange(args, k - 1);
      assert Range(k) == Range(k - 1) + [k - 1];
      assert Range(k)[..k - 1] == Range(k - 1);
      assert args[..k] == args[..k - 1] + [args[k - 1]];
      PlaceholdersSnoc(args[..k - 1], args[k - 1]);
    }
  }

  /** A format string whose holes name each argument once, in order (as the C# compiler
      emits for an interpolated string), formats successfully and keeps the arguments'
      placeholders in order. */
  lemma FormatInOrder(format: seq<FormatItem>, args: seq<Token>)
    requires Holes(format) == Range(|args|)
    ensures Format(format, args).Success?
    ensures Placeholders(Format(format, args).value) == Placeholders(args)
  {
    forall j | 0 <= j < |format| && format[j].Hole?
      ensures format[j].index < |args|
    {
      HoleListed(format, j);
    }
    FormatPlaceholders(format, args);
    GatherRange(args, |args|);
    assert args[..|args|] == args;
  }
}
