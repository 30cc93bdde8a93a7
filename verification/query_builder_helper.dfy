/** The placeholder compiler (`BuildQuery`) and the expression template extractor
    (`ParameterizeExpression`).

    `BuildQuery` is modelled by a declarative reference, `Compiled`: the slots a
    template uses, in order of first use, are expanded one after another into the
    parameter table, each slot's replacement text names the parameters it was given,
    and the text is the template with every placeholder replaced by its slot's text.
    The method itself follows the source step by step and is proved to compute
    exactly `Compiled`. */
module QueryBuilderHelper {
  import opened Wrappers
  import opened Strings
  import opened Templates
  import opened Expressions

  // ---------------------------------------------------------------------------
  // Reference definition of the placeholder compiler
  // ---------------------------------------------------------------------------

  /** The values one slot binds: a collection binds its elements in iteration order;
      every other value (null, a string and a byte array included) binds itself. */
  function Expand(v: Value): (r: seq<Value>)
    ensures v.Null? || v.Scalar? || v.Text? || v.Bytes? ==> r == [v]
    ensures v.Coll? ==> r == v.items
  {
    if v.Coll? then v.items else [v]
  }

  /** Every placeholder of `template` refers to one of `n` values. */
  predicate InRange(template: seq<Token>, n: nat)
  {
    forall j :: 0 <= j < |template| && template[j].Ph? ==> template[j].index < n
  }

  /** The first placeholder, from the left, whose index is not below `n`. */
  function FirstMissing(template: seq<Token>, n: nat): (r: Option<nat>)
    ensures r.None? <==> InRange(template, n)
    ensures r.Some? ==>
              && r.value >= n
              && exists j :: 0 <= j < |template| && template[j] == Ph(r.value) && InRange(template[..j], n)
    decreases |template|
  {
    if template == [] then None
    else
      var prefix := template[..|template| - 1];
      var last := template[|template| - 1];
      assert template == prefix + [last];
      match FirstMissing(prefix, n)
      case Some(i) =>
        assert forall j :: 0 <= j < |prefix| ==> template[..j] == prefix[..j];
        Some(i)
      case None =>
        if last.Ph? && last.index >= n then Some(last.index) else None
  }

  /** The slot indices `template` refers to, each once, in order of first appearance. */
  function FirstUses(template: seq<Token>): (order: seq<nat>)
    ensures forall i :: i in order <==> Ph(i) in template
    ensures forall j, k :: 0 <= j < k < |order| ==> order[j] != order[k]
    decreases |template|
  {
    if template == [] then []
    else
      var prefix := template[..|template| - 1];
      var last := template[|template| - 1];
      assert template == prefix + [last];
      var order := FirstUses(prefix);
      if last.Ph? && last.index !in order then order + [last.index] else order
  }

  /** Every slot index of `order` refers to one of `n` values. */
  predicate SlotsInRange(order: seq<nat>, n: nat)
  {
    forall k :: 0 <= k < |order| ==> order[k] < n
  }

  /** The values bound, in table order, when the slots of `order` are expanded one after another. */
  function Bindings(values: seq<Value>, order: seq<nat>): seq<Value>
    requires SlotsInRange(order, |values|)
    decreases |order|
  {
    if order == [] then []
    else
      var prefix := order[..|order| - 1];
      assert order == prefix + [order[|order| - 1]];
      Bindings(values, prefix) + Expand(values[order[|order| - 1]])
  }

  /** The table position of the first parameter of slot `i` (the number of values bound
      by the slots before it in `order`). */
  function Offset(values: seq<Value>, order: seq<nat>, i: nat): nat
    requires SlotsInRange(order, |values|)
    requires i in order
    decreases |order|
  {
    var prefix := order[..|order| - 1];
    var last := order[|order| - 1];
    assert order == prefix + [last];
    if last == i then |Bindings(values, prefix)| else Offset(values, prefix, i)
  }

  /** `n` consecutive parameter names starting at counter value `start`. */
  function Names(start: nat, n: nat): (r: seq<string>)
    ensures |r| == n && forall k :: 0 <= k < n ==> r[k] == ParamName(start + k)
  {
    seq(n, k requires 0 <= k < n => ParamName(start + k))
  }

  /** The text substituted for a slot whose first parameter has counter value `start`:
      a collection becomes a parenthesised, comma-separated list of its names (`()`
      when empty), any other value its single name. */
  function Replacement(v: Value, start: nat): (r: string)
    ensures !v.Coll? ==> r == ParamName(start)
    ensures v.Coll? ==> r == "(" + Join(", ", Names(start, |v.items|)) + ")"
    ensures v.Coll? && v.items == [] ==> r == "()"
  {
    if v.Coll? then "(" + Join(", ", Names(start, |v.items|)) + ")" else ParamName(start)
  }

  /** The replacement text of every slot of `order`. */
  function Reps(values: seq<Value>, order: seq<nat>): (reps: map<nat, string>)
    requires SlotsInRange(order, |values|)
    ensures forall i :: i in reps <==> i in order
  {
    map i | i in order :: Replacement(values[i], Offset(values, order, i))
  }

  /** One token's text: a literal is copied, a placeholder becomes its slot's replacement. */
  function Piece(t: Token, reps: map<nat, string>): string
    requires t.Ph? ==> t.index in reps
  {
    match t
    case Lit(s) => s
    case Ph(i) => reps[i]
  }

  /** The template with every token replaced by its piece. */
  function Render(template: seq<Token>, reps: map<nat, string>): string
    requires forall i :: Ph(i) in template ==> i in reps
    decreases |template|
  {
    if template == [] then ""
    else
      var prefix := template[..|template| - 1];
      assert template == prefix + [template[|template| - 1]];
      Render(prefix, reps) + Piece(template[|template| - 1], reps)
  }

  /** `n` fresh parameters, named from counter value `start` on, bound to `vs` in order. */
  function FreshParameters(start: nat, vs: seq<Value>): (r: seq<Parameter>)
    ensures |r| == |vs| && forall k :: 0 <= k < |vs| ==> r[k] == Parameter(ParamName(start + k), vs[k])
  {
    seq(|vs|, k requires 0 <= k < |vs| => Parameter(ParamName(start + k), vs[k]))
  }

  /** The parameter table binding `bound` in order to `@p0`, `@p1`, ... */
  function Table(bound: seq<Value>): (r: seq<Parameter>)
    ensures |r| == |bound| && forall k :: 0 <= k < |bound| ==> r[k] == Parameter(ParamName(k), bound[k])
  {
    FreshParameters(0, bound)
  }

  /** What `BuildQuery(query, values)` returns: the out-of-range error for the first
      placeholder without a value, and otherwise the rendered text with the table of
      the used slots expanded in order of first use. */
  function Compiled(query: seq<Token>, values: seq<Value>): (r: Result<Query, Error>)
    ensures r.Success? <==> InRange(query, |values|)
    ensures r.Failure? ==>
              && r.error.NoParameterProvided?
              && r.error.index >= |values|
              && exists j :: 0 <= j < |query| && query[j] == Ph(r.error.index) && InRange(query[..j], |values|)
    ensures r.Success? ==>
              forall k :: 0 <= k < |r.value.parameters| ==> r.value.parameters[k].name == ParamName(k)
  {
    match FirstMissing(query, |values|)
    case Some(i) => Failure(NoParameterProvided(i))
    case None =>
      var order := FirstUses(query);
      FirstUsesInRange(query, |values|);
      Success(Query(Render(query, Reps(values, order)), Table(Bindings(values, order))))
  }

  /** The slots a template uses are in range when its placeholders are. */
  lemma FirstUsesInRange(template: seq<Token>, n: nat)
    requires InRange(template, n)
    ensures SlotsInRange(FirstUses(template), n)
  {
    var order := FirstUses(template);
    forall k | 0 <= k < |order|
      ensures order[k] < n
    {
      assert order[k] in order;
      var j :| 0 <= j < |template| && template[j] == Ph(order[k]);
    }
  }

  // ---------------------------------------------------------------------------
  // How the reference grows by one token (used by BuildQuery's loop)
  // ---------------------------------------------------------------------------

  lemma FirstMissingSnoc(prefix: seq<Token>, t: Token, n: nat)
    ensures FirstMissing(prefix + [t], n) ==
            if FirstMissing(prefix, n).Some? then FirstMissing(prefix, n)
            else if t.Ph? && t.index >= n then Some(t.index)
            else None
  {
    assert (prefix + [t])[..|prefix|] == prefix;
  }

  /** Once a prefix has a missing index, the whole template fails with that index. */
  lemma {:induction false} FirstMissingPersists(template: seq<Token>, k: nat, n: nat)
    requires k <= |template|
    requires FirstMissing(template[..k], n).Some?
    ensures FirstMissing(template, n) == FirstMissing(template[..k], n)
    decreases |template| - k
  {
    if k < |template| {
      FirstMissingPersists(template, k + 1, n);
      assert template[..k + 1][..k] == template[..k];
    } else {
      assert template[..k] == template;
    }
  }

  lemma FirstUsesSnoc(prefix: seq<Token>, t: Token)
    ensures FirstUses(prefix + [t]) ==
            (if t.Ph? && t.index !in FirstUses(prefix) then FirstUses(prefix) + [t.index] else FirstUses(prefix))
  {
    assert (prefix + [t])[..|prefix|] == prefix;
  }

  lemma BindingsSnoc(values: seq<Value>, order: seq<nat>, i: nat)
    requires SlotsInRange(order, |values|)
    requires i < |values|
    ensures Bindings(values, order + [i]) == Bindings(values, order) + Expand(values[i])
  {
    assert (order + [i])[..|order|] == order;
  }

  /** A new slot keeps every earlier slot's replacement and gets its own at the current table end. */
  lemma RepsSnoc(values: seq<Value>, order: seq<nat>, i: nat)
    requires SlotsInRange(order, |values|)
    requires i < |values| && i !in order
    ensures Reps(values, order + [i]) ==
            Reps(values, order)[i := Replacement(values[i], |Bindings(values, order)|)]
  {
    var order' := order + [i];
    assert order'[..|order|] == order;
    forall j | j in order
      ensures Offset(values, order', j) == Offset(values, order, j)
    {
    }
  }

  /** Rendering depends only on the replacements of the slots the template uses. */
  lemma {:induction false} RenderFrame(template: seq<Token>, reps: map<nat, string>, reps': map<nat, string>)
    requires forall i :: Ph(i) in template ==> i in reps && i in reps' && reps[i] == reps'[i]
    ensures Render(template, reps) == Render(template, reps')
    decreases |template|
  {
    if template != [] {
      var prefix := template[..|template| - 1];
      assert template == prefix + [template[|template| - 1]];
      RenderFrame(prefix, reps, reps');
    }
  }

  lemma RenderSnoc(prefix: seq<Token>, t: Token, reps: map<nat, string>)
    requires forall i :: Ph(i) in prefix + [t] ==> i in reps
    ensures Render(prefix + [t], reps) == Render(prefix, reps) + Piece(t, reps)
  {
    assert (prefix + [t])[..|prefix|] == prefix;
  }

  lemma TableSnoc(bound: seq<Value>, v: Value)
    ensures Table(bound + [v]) == Table(bound) + [Parameter(ParamName(|bound|), v)]
  {
  }

  lemma TableAppend(bound: seq<Value>, more: seq<Value>)
    ensures Table(bound + more) == Table(bound) + FreshParameters(|bound|, more)
  {
    var lhs, rhs := Table(bound + more), Table(bound) + FreshParameters(|bound|, more);
    assert |lhs| == |rhs|;
    forall k | 0 <= k < |lhs|
      ensures lhs[k] == rhs[k]
    {
      if k < |bound| {
        assert rhs[k] == Table(bound)[k];
      } else {
        assert rhs[k] == FreshParameters(|bound|, more)[k - |bound|];
      }
    }
  }

  // ---------------------------------------------------------------------------
  // The placeholder compiler
  // ---------------------------------------------------------------------------

  /** The new-slot branch of BuildQuery's replacement callback: bind the slot's value
      (each element of a collection, in order) to fresh names from the counter, append
      them to the table and return the slot's replacement text. */
  method BindSlot(value: Value, paramIndex: nat, parameters: seq<Parameter>, ghost bound: seq<Value>)
    returns (replacement: string, paramIndex': nat, parameters': seq<Parameter>)
    requires parameters == Table(bound) && paramIndex == |bound|
    ensures replacement == Replacement(value, paramIndex)
    ensures parameters' == Table(bound + Expand(value))
    ensures paramIndex' == paramIndex + |Expand(value)|
  {
    paramIndex', parameters' := paramIndex, parameters;
    if value.Coll? {
      var paramNames: seq<string> := [];
      var j := 0;
      while j < |value.items|
        invariant 0 <= j <= |value.items|
        invariant paramNames == Names(paramIndex, j)
        invariant parameters' == Table(bound + value.items[..j])
        invariant paramIndex' == paramIndex + j
      {
        var name := ParamName(paramIndex');
        paramIndex' := paramIndex' + 1;
        paramNames := paramNames + [name];
        TableSnoc(bound + value.items[..j], value.items[j]);
        assert bound + value.items[..j + 1] == (bound + value.items[..j]) + [value.items[j]];
        parameters' := parameters' + [Parameter(name, value.items[j])];
        j := j + 1;
      }
      assert value.items[..j] == value.items;
      replacement := "(" + Join(", ", paramNames) + ")";
    } else {
      var paramName := ParamName(paramIndex');
      paramIndex' := paramIndex' + 1;
      TableSnoc(bound, value);
      parameters' := parameters' + [Parameter(paramName, value)];
      replacement := paramName;
    }
  }

  /** The state BuildQuery has reached after the tokens of `prefix`: the used-slot map,
      the table and the text are the reference's for that prefix. */
  ghost predicate Built(values: seq<Value>, prefix: seq<Token>, used: map<nat, string>,
                        parameters: seq<Parameter>, text: string)
  {
    && InRange(prefix, |values|)
    && SlotsInRange(FirstUses(prefix), |values|)
    && used == Reps(values, FirstUses(prefix))
    && parameters == Table(Bindings(values, FirstUses(prefix)))
    && text == Render(prefix, used)
  }

  lemma PrefixSnoc<T>(s: seq<T>, k: nat)
    requires k < |s|
    ensures s[..k + 1] == s[..k] + [s[k]]
  {
  }

  lemma BuiltStart(values: seq<Value>)
    ensures Built(values, [], map[], [], "")
  {
    assert Reps(values, []) == map[];
  }

  lemma StepLiteral(values: seq<Value>, prefix: seq<Token>, used: map<nat, string>,
                    parameters: seq<Parameter>, text: string, s: string)
    requires Built(values, prefix, used, parameters, text)
    ensures Built(values, prefix + [Lit(s)], used, parameters, text + s)
  {
    FirstUsesSnoc(prefix, Lit(s));
    RenderSnoc(prefix, Lit(s), used);
    assert InRange(prefix + [Lit(s)], |values|);
  }

  lemma StepSeen(values: seq<Value>, prefix: seq<Token>, used: map<nat, string>,
                 parameters: seq<Parameter>, text: string, i: nat)
    requires Built(values, prefix, used, parameters, text)
    requires i < |values| && i in used
    ensures Built(values, prefix + [Ph(i)], used, parameters, text + used[i])
  {
    FirstUsesSnoc(prefix, Ph(i));
    var order := FirstUses(prefix);
    assert i in order;
    assert FirstUses(prefix + [Ph(i)]) == order;
    assert InRange(prefix + [Ph(i)], |values|);
    RenderSnoc(prefix, Ph(i), used);
  }

  lemma StepNew(values: seq<Value>, prefix: seq<Token>, used: map<nat, string>,
                parameters: seq<Parameter>, text: string, i: nat,
                replacement: string, parameters': seq<Parameter>)
    requires Built(values, prefix, used, parameters, text)
    requires i < |values| && i !in used
    requires replacement == Replacement(values[i], |parameters|)
    requires parameters' == Table(Bindings(values, FirstUses(prefix)) + Expand(values[i]))
    ensures Built(values, prefix + [Ph(i)], used[i := replacement], parameters', text + replacement)
  {
    var order := FirstUses(prefix);
    var order' := FirstUses(prefix + [Ph(i)]);
    assert order' == order + [i] by {
      FirstUsesSnoc(prefix, Ph(i));
    }
    assert InRange(prefix + [Ph(i)], |values|);
    assert SlotsInRange(order', |values|);
    assert parameters' == Table(Bindings(values, order')) by {
      BindingsSnoc(values, order, i);
    }
    assert used[i := replacement] == Reps(values, order') by {
      RepsSnoc(values, order, i);
    }
    assert text + replacement == Render(prefix + [Ph(i)], used[i := replacement]) by {
      RenderFrame(prefix, used, used[i := replacement]);
      RenderSnoc(prefix, Ph(i), used[i := replacement]);
    }
  }

  /** Replaces each placeholder `{i}` of `query` with generated parameter names, from
      one counter shared by the whole call: a slot seen before reuses its earlier text,
      a collection slot gets one parameter per element and the text `(@pa, @pb, ...)`,
      any other slot one parameter. A placeholder without a value fails the whole call. */
  method BuildQuery(query: seq<Token>, values: seq<Value>) returns (r: Result<Query, Error>)
    ensures r == Compiled(query, values)
  {
    var paramIndex: nat := 0;
    var usedParamIndexes: map<nat, string> := map[];
    var parameters: seq<Parameter> := [];
    var updatedQuery := "";
    var pos := 0;
    ghost var done: seq<Token> := [];
    BuiltStart(values);
    while pos < |query|
      invariant 0 <= pos <= |query| && done == query[..pos]
      invariant Built(values, done, usedParamIndexes, parameters, updatedQuery)
      invariant paramIndex == |parameters|
    {
      var token := query[pos];
      match token {
        case Lit(s) =>
          StepLiteral(values, done, usedParamIndexes, parameters, updatedQuery, s);
          updatedQuery := updatedQuery + s;
        case Ph(valueIndex) =>
          if valueIndex >= |values| {
            FirstMissingSnoc(done, token, |values|);
            PrefixSnoc(query, pos);
            FirstMissingPersists(query, pos + 1, |values|);
            return Failure(NoParameterProvided(valueIndex));
          }
          var value := values[valueIndex];
          if valueIndex in usedParamIndexes {
            StepSeen(values, done, usedParamIndexes, parameters, updatedQuery, valueIndex);
            updatedQuery := updatedQuery + usedParamIndexes[valueIndex];
          } else {
            var replacement, parameters';
            replacement, paramIndex, parameters' :=
              BindSlot(value, paramIndex, parameters, Bindings(values, FirstUses(done)));
            StepNew(values, done, usedParamIndexes, parameters, updatedQuery, valueIndex, replacement, parameters');
            usedParamIndexes := usedParamIndexes[valueIndex := replacement];
            parameters := parameters';
            updatedQuery := updatedQuery + replacement;
          }
      }
      PrefixSnoc(query, pos);
      done := done + [token];
      pos := pos + 1;
    }
    assert done == query;
    r := Success(Query(updatedQuery, parameters));
  }

  // ---------------------------------------------------------------------------
  // Properties of the placeholder compiler
  // ---------------------------------------------------------------------------

  /** The reached state of a template that compiles is the reference's result, and back. */
  lemma CompiledBuilt(query: seq<Token>, values: seq<Value>)
    requires Compiled(query, values).Success?
    ensures SlotsInRange(FirstUses(query), |values|)
    ensures Built(values, query, Reps(values, FirstUses(query)),
                  Compiled(query, values).value.parameters, Compiled(query, values).value.text)
  {
    FirstUsesInRange(query, |values|);
  }

  lemma BuiltCompiled(values: seq<Value>, query: seq<Token>, used: map<nat, string>,
                      parameters: seq<Parameter>, text: string)
    requires Built(values, query, used, parameters, text)
    ensures Compiled(query, values) == Success(Query(text, parameters))
  {
  }

  /** The empty template compiles to the empty text and binds nothing. */
  lemma EmptyTemplate(values: seq<Value>)
    ensures Compiled([], values) == Success(Query("", []))
  {
    assert Table([]) == [];
  }

  /** The text every placeholder of slot `i` becomes when `query` is compiled. */
  function SlotText(query: seq<Token>, values: seq<Value>, i: nat): string
    requires InRange(query, |values|) && Ph(i) in query
  {
    FirstUsesInRange(query, |values|);
    Reps(values, FirstUses(query))[i]
  }

  /** Appending a literal appends its text and binds nothing new. */
  lemma LiteralAppended(query: seq<Token>, values: seq<Value>, s: string)
    ensures Compiled(query + [Lit(s)], values) ==
            match Compiled(query, values)
            case Failure(e) => Failure(e)
            case Success(q) => Success(Query(q.text + s, q.parameters))
  {
    FirstMissingSnoc(query, Lit(s), |values|);
    if Compiled(query, values).Success? {
      CompiledBuilt(query, values);
      var q := Compiled(query, values).value;
      StepLiteral(values, query, Reps(values, FirstUses(query)), q.parameters, q.text, s);
      BuiltCompiled(values, query + [Lit(s)], Reps(values, FirstUses(query)), q.parameters, q.text + s);
    }
  }

  /** A placeholder of a slot used before repeats that slot's text and binds nothing new. */
  lemma RepeatedPlaceholder(query: seq<Token>, values: seq<Value>, i: nat)
    requires Ph(i) in query
    ensures Compiled(query + [Ph(i)], values) ==
            match Compiled(query, values)
            case Failure(e) => Failure(e)
            case Success(q) => Success(Query(q.text + SlotText(query, values, i), q.parameters))
  {
    FirstMissingSnoc(query, Ph(i), |values|);
    if Compiled(query, values).Success? {
      CompiledBuilt(query, values);
      var q := Compiled(query, values).value;
      var used := Reps(values, FirstUses(query));
      var j :| 0 <= j < |query| && query[j] == Ph(i);
      assert i < |values|;
      StepSeen(values, query, used, q.parameters, q.text, i);
      BuiltCompiled(values, query + [Ph(i)], used, q.parameters, q.text + used[i]);
    }
  }

  /** A placeholder of a slot not used before fails when the slot has no value, and
      otherwise binds the slot's values to fresh names after the existing parameters
      and appends the slot's replacement text naming them. */
  lemma NewPlaceholder(query: seq<Token>, values: seq<Value>, i: nat)
    requires Ph(i) !in query
    ensures Compiled(query + [Ph(i)], values) ==
            match Compiled(query, values)
            case Failure(e) => Failure(e)
            case Success(q) =>
              if i >= |values| then Failure(NoParameterProvided(i))
              else Success(Query(q.text + Replacement(values[i], |q.parameters|),
                                 q.parameters + FreshParameters(|q.parameters|, Expand(values[i]))))
  {
    FirstMissingSnoc(query, Ph(i), |values|);
    if Compiled(query, values).Success? && i < |values| {
      CompiledBuilt(query, values);
      var q := Compiled(query, values).value;
      var used := Reps(values, FirstUses(query));
      var bound := Bindings(values, FirstUses(query));
      var replacement := Replacement(values[i], |q.parameters|);
      TableAppend(bound, Expand(values[i]));
      StepNew(values, query, used, q.parameters, q.text, i, replacement, Table(bound + Expand(values[i])));
      BuiltCompiled(values, query + [Ph(i)], used[i := replacement], Table(bound + Expand(values[i])),
                    q.text + replacement);
    }
  }

  /** A slot's values sit in the flattened table at its offset. */
  lemma {:induction false} BindingsAtOffset(values: seq<Value>, order: seq<nat>, i: nat, k: nat)
    requires SlotsInRange(order, |values|) && i in order && k < |Expand(values[i])|
    ensures Offset(values, order, i) + |Expand(values[i])| <= |Bindings(values, order)|
    ensures Bindings(values, order)[Offset(values, order, i) + k] == Expand(values[i])[k]
    decreases |order|
  {
    var prefix := order[..|order| - 1];
    var last := order[|order| - 1];
    assert SlotsInRange(prefix, |values|);
    var before := Bindings(values, prefix);
    assert Bindings(values, order) == before + Expand(values[last]);
    if last != i {
      var j :| 0 <= j < |order| && order[j] == i;
      assert prefix[j] == i;
      BindingsAtOffset(values, prefix, i, k);
    }
  }

  /** Every flattened value belongs to one of the slots of `order`. */
  lemma {:induction false} BindingsFromSlots(values: seq<Value>, order: seq<nat>, k: nat)
    requires SlotsInRange(order, |values|) && k < |Bindings(values, order)|
    ensures exists i :: i in order && i < |values| && Bindings(values, order)[k] in Expand(values[i])
    decreases |order|
  {
    var prefix := order[..|order| - 1];
    var last := order[|order| - 1];
    assert order == prefix + [last];
    if k < |Bindings(values, prefix)| {
      BindingsFromSlots(values, prefix, k);
      var i :| i in prefix && i < |values| && Bindings(values, prefix)[k] in Expand(values[i]);
      assert i in order;
    } else {
      assert Bindings(values, order)[k] == Expand(values[last])[k - |Bindings(values, prefix)|];
    }
  }

  /** The block of table entries a slot of `order` binds, and its replacement text. */
  lemma SlotBlock(values: seq<Value>, order: seq<nat>, i: nat)
    requires SlotsInRange(order, |values|) && i in order
    ensures i < |values|
    ensures var ps := Table(Bindings(values, order));
            var start := Offset(values, order, i);
            && start + |Expand(values[i])| <= |ps|
            && Reps(values, order)[i] == Replacement(values[i], start)
            && forall k :: 0 <= k < |Expand(values[i])| ==>
                 ps[start + k] == Parameter(ParamName(start + k), Expand(values[i])[k])
  {
    var k0 :| 0 <= k0 < |order| && order[k0] == i;
    var start := Offset(values, order, i);
    var slot := Expand(values[i]);
    if slot != [] {
      BindingsAtOffset(values, order, i, 0);
    } else {
      assert start <= |Bindings(values, order)| by {
        OffsetBound(values, order, i);
      }
    }
    forall k | 0 <= k < |slot|
      ensures Table(Bindings(values, order))[start + k] == Parameter(ParamName(start + k), slot[k])
    {
      BindingsAtOffset(values, order, i, k);
    }
  }

  lemma {:induction false} OffsetBound(values: seq<Value>, order: seq<nat>, i: nat)
    requires SlotsInRange(order, |values|) && i in order
    ensures Offset(values, order, i) + |Expand(values[i])| <= |Bindings(values, order)|
    decreases |order|
  {
    var prefix := order[..|order| - 1];
    var last := order[|order| - 1];
    assert SlotsInRange(prefix, |values|);
    assert Bindings(values, order) == Bindings(values, prefix) + Expand(values[last]);
    if last != i {
      var j :| 0 <= j < |order| && order[j] == i;
      assert prefix[j] == i;
      OffsetBound(values, prefix, i);
    }
  }

  /** The counter value of the first parameter slot `i` binds when `query` is compiled. */
  function SlotStart(query: seq<Token>, values: seq<Value>, i: nat): nat
    requires InRange(query, |values|) && Ph(i) in query
  {
    FirstUsesInRange(query, |values|);
    Offset(values, FirstUses(query), i)
  }

  /** Every slot a compiled template uses has a block of consecutive parameters holding
      its values (a collection's elements in order, any other value itself), and the
      text of each of its placeholders names exactly that block. */
  lemma SlotTextNamesItsParameters(query: seq<Token>, values: seq<Value>, i: nat)
    requires Compiled(query, values).Success? && Ph(i) in query
    ensures i < |values|
    ensures var ps := Compiled(query, values).value.parameters;
            var start := SlotStart(query, values, i);
            && start + |Expand(values[i])| <= |ps|
            && SlotText(query, values, i) == Replacement(values[i], start)
            && forall k :: 0 <= k < |Expand(values[i])| ==>
                 ps[start + k] == Parameter(ParamName(start + k), Expand(values[i])[k])
  {
    var order := FirstUses(query);
    FirstUsesInRange(query, |values|);
    assert i in order;
    SlotBlock(values, order, i);
  }

  /** Every parameter holds a value of a slot the template uses. */
  lemma ParametersComeFromUsedSlots(query: seq<Token>, values: seq<Value>)
    requires Compiled(query, values).Success?
    ensures var ps := Compiled(query, values).value.parameters;
            forall k :: 0 <= k < |ps| ==>
              exists i: nat :: Ph(i) in query && i < |values| && ps[k].value in Expand(values[i])
  {
    FirstUsesInRange(query, |values|);
    var order := FirstUses(query);
    var ps := Compiled(query, values).value.parameters;
    forall k | 0 <= k < |ps|
      ensures exists i: nat :: Ph(i) in query && i < |values| && ps[k].value in Expand(values[i])
    {
      BindingsFromSlots(values, order, k);
      var i :| i in order && i < |values| && Bindings(values, order)[k] in Expand(values[i]);
      assert Ph(i) in query;
    }
  }

  /** No two parameters of a compiled template share a name, so binding them one by
      one never meets a name that is already taken. */
  lemma ParameterNamesDistinct(query: seq<Token>, values: seq<Value>)
    requires Compiled(query, values).Success?
    ensures var ps := Compiled(query, values).value.parameters;
            forall j, k :: 0 <= j < k < |ps| ==> ps[j].name != ps[k].name
  {
    var ps := Compiled(query, values).value.parameters;
    forall j, k | 0 <= j < k < |ps|
      ensures ps[j].name != ps[k].name
    {
      ParamNamesDistinct(j, k);
    }
  }

  /** Values that agree on the slots of `order` flatten alike. */
  lemma {:induction false} BindingsAgree(values: seq<Value>, values': seq<Value>, order: seq<nat>)
    requires SlotsInRange(order, |values|) && SlotsInRange(order, |values'|)
    requires forall k :: 0 <= k < |order| ==> values[order[k]] == values'[order[k]]
    ensures Bindings(values, order) == Bindings(values', order)
    decreases |order|
  {
    if order != [] {
      var prefix := order[..|order| - 1];
      assert order == prefix + [order[|order| - 1]];
      BindingsAgree(values, values', prefix);
    }
  }

  lemma {:induction false} OffsetAgree(values: seq<Value>, values': seq<Value>, order: seq<nat>, i: nat)
    requires SlotsInRange(order, |values|) && SlotsInRange(order, |values'|) && i in order
    requires forall k :: 0 <= k < |order| ==> values[order[k]] == values'[order[k]]
    ensures Offset(values, order, i) == Offset(values', order, i)
    decreases |order|
  {
    var prefix := order[..|order| - 1];
    var last := order[|order| - 1];
    assert order == prefix + [last];
    if last == i {
      BindingsAgree(values, values', prefix);
    } else {
      assert i in prefix;
      OffsetAgree(values, values', prefix, i);
    }
  }

  /** The result depends only on how many values there are and on the values of the
      slots the template refers to: unreferenced values are ignored. */
  lemma UnreferencedValuesIgnored(query: seq<Token>, values: seq<Value>, values': seq<Value>)
    requires |values| == |values'|
    requires forall i: nat :: Ph(i) in query && i < |values| ==> values[i] == values'[i]
    ensures Compiled(query, values) == Compiled(query, values')
  {
    if InRange(query, |values|) {
      FirstUsesInRange(query, |values|);
      var order := FirstUses(query);
      forall k | 0 <= k < |order|
        ensures values[order[k]] == values'[order[k]]
      {
        assert order[k] in order;
      }
      BindingsAgree(values, values', order);
      forall i | i in order
        ensures Offset(values, order, i) == Offset(values', order, i)
      {
        OffsetAgree(values, values', order, i);
      }
      assert Reps(values, order) == Reps(values', order);
    }
  }

  /** Values beyond the last one a placeholder refers to are ignored. */
  lemma ExtraValuesIgnored(query: seq<Token>, values: seq<Value>, extra: seq<Value>)
    requires InRange(query, |values|)
    ensures Compiled(query, values + extra) == Compiled(query, values)
  {
    var values' := values + extra;
    assert InRange(query, |values'|);
    FirstUsesInRange(query, |values|);
    FirstUsesInRange(query, |values'|);
    var order := FirstUses(query);
    forall k | 0 <= k < |order|
      ensures values[order[k]] == values'[order[k]]
    {
    }
    BindingsAgree(values, values', order);
    forall i | i in order
      ensures Offset(values, order, i) == Offset(values', order, i)
    {
      OffsetAgree(values, values', order, i);
    }
    assert Reps(values, order) == Reps(values', order);
  }

  // ---------------------------------------------------------------------------
  // Slots bound in order of appearance
  // ---------------------------------------------------------------------------

  /** Every value's slot contents, one slot after another. */
  function Flatten(values: seq<Value>): seq<Value>
    decreases |values|
  {
    if values == [] then [] else Flatten(values[..|values| - 1]) + Expand(values[|values| - 1])
  }

  /** A template whose placeholders never repeat uses its slots in the order they appear. */
  lemma {:induction false} FirstUsesDistinct(template: seq<Token>)
    requires forall j, k :: 0 <= j < k < |Placeholders(template)| ==> Placeholders(template)[j] != Placeholders(template)[k]
    ensures FirstUses(template) == Placeholders(template)
    decreases |template|
  {
    if template != [] {
      var prefix := template[..|template| - 1];
      var last := template[|template| - 1];
      assert template == prefix + [last];
      var ps := Placeholders(prefix);
      assert Placeholders(template) == ps + (if last.Ph? then [last.index] else []);
      assert forall j, k :: 0 <= j < k < |ps| ==> ps[j] != ps[k] by {
        forall j, k | 0 <= j < k < |ps|
          ensures ps[j] != ps[k]
        {
          assert ps[j] == Placeholders(template)[j] && ps[k] == Placeholders(template)[k];
        }
      }
      FirstUsesDistinct(prefix);
      FirstUsesSnoc(prefix, last);
      if last.Ph? {
        forall j | 0 <= j < |ps|
          ensures ps[j] != last.index
        {
          assert Placeholders(template)[j] == ps[j] && Placeholders(template)[|ps|] == last.index;
        }
      }
    }
  }

  /** Binding slots `0 .. k - 1` in index order flattens the first `k` values. */
  lemma {:induction false} BindingsRange(values: seq<Value>, k: nat)
    requires k <= |values|
    ensures SlotsInRange(Range(k), |values|)
    ensures Bindings(values, Range(k)) == Flatten(values[..k])
    decreases k
  {
    if k > 0 {
      BindingsRange(values, k - 1);
      assert Range(k) == Range(k - 1) + [k - 1];
      BindingsSnoc(values, Range(k - 1), k - 1);
      assert values[..k][..k - 1] == values[..k - 1];
    }
  }

  /** A template that refers to each of its values exactly once, in index order, binds
      every value (a collection's elements in turn) to `@p0`, `@p1`, ... in that order. */
  lemma SlotsInIndexOrder(template: seq<Token>, values: seq<Value>)
    requires Placeholders(template) == Range(|values|)
    ensures Compiled(template, values).Success?
    ensures Compiled(template, values).value.parameters == Table(Flatten(values))
  {
    FirstUsesDistinct(template);
    forall j | 0 <= j < |template| && template[j].Ph?
      ensures template[j].index < |values|
    {
      PlaceholderListed(template, j);
    }
    BindingsRange(values, |values|);
    assert values[..|values|] == values;
  }

  /** Each placeholder of a template is listed by `Placeholders`. */
  lemma {:induction false} PlaceholderListed(template: seq<Token>, j: nat)
    requires j < |template| && template[j].Ph?
    ensures template[j].index in Placeholders(template)
    decreases |template|
  {
    var prefix := template[..|template| - 1];
    assert template == prefix + [template[|template| - 1]];
    if j < |prefix| {
      PlaceholderListed(prefix, j);
    }
  }

  // ---------------------------------------------------------------------------
  // The expression template extractor
  // ---------------------------------------------------------------------------

  const CreateExpected := "Expected interpolated string to become FormattableStringFactory.Create(...)"
  const FormatNotConstant := "Format string is not a constant"

  /** How many interpolation arguments the resolver does not recognise: the running
      `paramValues.Count` that numbers each new placeholder. It is a function of its own
      because the rewritten text does not depend on how the arguments evaluate;
      `SlotValues` is tied to it by its length. */
  function SlotCount(args: seq<Node>, resolve: Node -> Option<string>): nat
    decreases |args|
  {
    if args == [] then 0
    else SlotCount(args[..|args| - 1], resolve) + (if resolve(args[|args| - 1]).None? then 1 else 0)
  }

  /** The evaluated values of the arguments the resolver does not recognise, in order. */
  function SlotValues(args: seq<Node>, resolve: Node -> Option<string>, evaluate: Node -> Value): (r: seq<Value>)
    ensures |r| == SlotCount(args, resolve)
    decreases |args|
  {
    if args == [] then []
    else
      var last := args[|args| - 1];
      SlotValues(args[..|args| - 1], resolve, evaluate) + (if resolve(last).None? then [evaluate(last)] else [])
  }

  /** The template text each interpolation argument becomes: a recognised field reference
      its path, each other argument a placeholder numbered by how many such arguments
      came before it. */
  function Rewritten(args: seq<Node>, resolve: Node -> Option<string>): (r: seq<Token>)
    ensures |r| == |args|
    decreases |args|
  {
    if args == [] then []
    else
      var prefix := args[..|args| - 1];
      var arg :=
        match resolve(args[|args| - 1])
        case Some(path) => Lit(path)
        case None => Ph(SlotCount(prefix, resolve));
      Rewritten(prefix, resolve) + [arg]
  }

  /** A recognised argument becomes its path as literal text; every other argument becomes
      a placeholder whose slot holds exactly that argument's value. */
  lemma {:induction false} RewrittenArguments(args: seq<Node>, resolve: Node -> Option<string>,
                                              evaluate: Node -> Value, j: nat)
    requires j < |args|
    ensures resolve(args[j]).Some? ==> Rewritten(args, resolve)[j] == Lit(resolve(args[j]).value)
    ensures resolve(args[j]).None? ==>
              && Rewritten(args, resolve)[j].Ph?
              && Rewritten(args, resolve)[j].index < |SlotValues(args, resolve, evaluate)|
              && SlotValues(args, resolve, evaluate)[Rewritten(args, resolve)[j].index] == evaluate(args[j])
    decreases |args|
  {
    var prefix := args[..|args| - 1];
    if j < |prefix| {
      RewrittenArguments(prefix, resolve, evaluate, j);
      assert args[j] == prefix[j];
      assert Rewritten(args, resolve)[j] == Rewritten(prefix, resolve)[j];
      assert SlotValues(prefix, resolve, evaluate) <= SlotValues(args, resolve, evaluate);
    }
  }

  /** The placeholders of the rewritten arguments are `0 .. n - 1`, each once and in
      order, where `n` is the number of value arguments. */
  lemma {:induction false} RewrittenPlaceholders(args: seq<Node>, resolve: Node -> Option<string>)
    ensures Placeholders(Rewritten(args, resolve)) == Range(SlotCount(args, resolve))
    decreases |args|
  {
    if args != [] {
      var prefix := args[..|args| - 1];
      var done := Rewritten(prefix, resolve);
      var n := SlotCount(prefix, resolve);
      RewrittenPlaceholders(prefix, resolve);
      var t := Rewritten(args, resolve)[|args| - 1];
      assert Rewritten(args, resolve) == done + [t];
      PlaceholdersSnoc(done, t);
      if t.Ph? {
        assert Range(n + 1) == Range(n) + [n];
      }
    }
  }

  /** What `ParameterizeExpression` returns for the body of the lambda: the call must be
      `Create` with a constant format string and an array of interpolation arguments;
      recognised arguments are inlined as paths, the others evaluated and bound through
      the placeholder compiler. */
  function Parameterized(body: Node, resolve: Node -> Option<string>, evaluate: Node -> Value)
    : (r: Result<Query, Error>)
    ensures !(body.Call? && body.methodName == "Create") ==> r == Failure(InvalidOperation(CreateExpected))
    ensures body.Call? && body.methodName == "Create" && |body.arguments| > 0 && !body.arguments[0].Constant? ==>
              r == Failure(InvalidOperation(FormatNotConstant))
  {
    if !(body.Call? && body.methodName == "Create") then Failure(InvalidOperation(CreateExpected))
    else if |body.arguments| == 0 then Failure(MalformedCall)
    else if !body.arguments[0].Constant? then Failure(InvalidOperation(FormatNotConstant))
    else if !body.arguments[0].value.FormatString? then Failure(MalformedCall)
    else if |body.arguments| < 2 || !body.arguments[1].NewArray? then Failure(MalformedCall)
    else
      var args := body.arguments[1].elements;
      match Format(body.arguments[0].value.format, Rewritten(args, resolve))
      case Failure(e) => Failure(e)
      case Success(template) => Compiled(template, SlotValues(args, resolve, evaluate))
  }

  /** Extracts the query from a lambda returning an interpolated string: each interpolation
      argument the resolver recognises is inlined as its path; each other argument is
      evaluated, collected as the next value and replaced by a placeholder for it; the
      format string is then formatted with those replacements and compiled. */
  method ParameterizeExpression(body: Node, resolve: Node -> Option<string>, evaluate: Node -> Value)
    returns (r: Result<Query, Error>)
    ensures r == Parameterized(body, resolve, evaluate)
  {
    if !(body.Call? && body.methodName == "Create") {
      return Failure(InvalidOperation(CreateExpected));
    }
    if |body.arguments| == 0 {
      return Failure(MalformedCall);
    }
    var formatArg := body.arguments[0];
    if !formatArg.Constant? {
      return Failure(InvalidOperation(FormatNotConstant));
    }
    if !formatArg.value.FormatString? || |body.arguments| < 2 || !body.arguments[1].NewArray? {
      return Failure(MalformedCall);
    }
    var formatString := formatArg.value.format;
    var argExprs := body.arguments[1].elements;
    var paramValues: seq<Value> := [];
    var rewrittenArgs: seq<Token> := [];
    var j := 0;
    while j < |argExprs|
      invariant 0 <= j <= |argExprs|
      invariant rewrittenArgs == Rewritten(argExprs[..j], resolve)
      invariant paramValues == SlotValues(argExprs[..j], resolve, evaluate)
    {
      var expr := argExprs[j];
      assert argExprs[..j + 1][..j] == argExprs[..j] && argExprs[..j + 1][j] == expr;
      match resolve(expr) {
        case Some(path) =>
          rewrittenArgs := rewrittenArgs + [Lit(path)];
        case None =>
          paramValues := paramValues + [evaluate(expr)];
          rewrittenArgs := rewrittenArgs + [Ph(|paramValues| - 1)];
      }
      j := j + 1;
    }
    assert argExprs[..j] == argExprs;
    match Format(formatString, rewrittenArgs) {
      case Failure(e) =>
        r := Failure(e);
      case Success(rewrittenQuery) =>
        r := BuildQuery(rewrittenQuery, paramValues);
    }
  }

  /** For an interpolated string (every argument used once, in order), the parameter
      table binds the values of the unrecognised arguments in argument order, a
      collection's elements in turn, named `@p0`, `@p1`, ... with no reuse. */
  lemma ParameterizedInOrder(body: Node, resolve: Node -> Option<string>, evaluate: Node -> Value)
    requires body.Call? && body.methodName == "Create" && |body.arguments| >= 2
    requires body.arguments[0].Constant? && body.arguments[0].value.FormatString?
    requires body.arguments[1].NewArray?
    requires Holes(body.arguments[0].value.format) == Range(|body.arguments[1].elements|)
    ensures Parameterized(body, resolve, evaluate).Success?
    ensures Parameterized(body, resolve, evaluate).value.parameters
         == Table(Flatten(SlotValues(body.arguments[1].elements, resolve, evaluate)))
  {
    var args := body.arguments[1].elements;
    var format := body.arguments[0].value.format;
    var rewritten := Rewritten(args, resolve);
    var values := SlotValues(args, resolve, evaluate);
    FormatInOrder(format, rewritten);
    RewrittenPlaceholders(args, resolve);
    SlotsInIndexOrder(Format(format, rewritten).value, values);
  }
}
