/** The default field name resolver: it turns a field reference in an expression tree
    (`c.SubDoc.Prop`) into its JSON path (`c.subDoc.prop`). Each accessed member
    contributes its JSON name: the name a JSON naming attribute gives it, or else its
    declared name, camel-cased unless the resolver was built with `useCamelCase` false. */
module DefaultFieldNameResolver {
  import opened Wrappers
  import opened Strings
  import opened Expressions

  // ---------------------------------------------------------------------------
  // Camel case
  // ---------------------------------------------------------------------------

  /** `char.ToLowerInvariant` on the ASCII range: upper-case letters become lower-case,
      every other character is unchanged. */
  function ToLowerInvariant(c: char): (r: char)
    ensures 'A' <= c <= 'Z' ==> 'a' <= r <= 'z' && r as int - c as int == 'a' as int - 'A' as int
    ensures !('A' <= c <= 'Z') ==> r == c
  {
    if 'A' <= c <= 'Z' then (c as int - 'A' as int + 'a' as int) as char else c
  }

  /** Lowers the first character and keeps the rest; the empty string is returned as is. */
  function ToCamelCase(s: string): (r: string)
    ensures |r| == |s|
    ensures |s| > 0 ==> r[0] == ToLowerInvariant(s[0]) && r[1..] == s[1..]
    ensures |s| > 0 && !('A' <= s[0] <= 'Z') ==> r == s
  {
    if s == [] then s
    else
      assert s == [s[0]] + s[1..];
      [ToLowerInvariant(s[0])] + s[1..]
  }

  /** Camel-casing a camel-cased name changes nothing. */
  lemma ToCamelCaseIdempotent(s: string)
    ensures ToCamelCase(ToCamelCase(s)) == ToCamelCase(s)
  {
    if s != [] {
      var c := ToLowerInvariant(s[0]);
      assert ToLowerInvariant(c) == c;
      assert ToCamelCase(s)[1..] == s[1..];
    }
  }

  // ---------------------------------------------------------------------------
  // JSON names of members
  // ---------------------------------------------------------------------------

  const NewtonsoftAttribute := "JsonPropertyAttribute"
  const NewtonsoftProperty := "PropertyName"
  const SystemTextJsonAttribute := "JsonPropertyNameAttribute"
  const SystemTextJsonProperty := "Name"

  /** The name an attribute gives its member: the `PropertyName` of a Newtonsoft
      `JsonPropertyAttribute` or the `Name` of a System.Text.Json
      `JsonPropertyNameAttribute`, when that value is present and non-empty. */
  function AttributeName(a: Attribute): (r: Option<string>)
    ensures r.Some? ==> r.value != ""
    ensures r.Some? <==>
              || (a.typeName == NewtonsoftAttribute && NewtonsoftProperty in a.properties
                  && a.properties[NewtonsoftProperty] != "")
              || (a.typeName == SystemTextJsonAttribute && SystemTextJsonProperty in a.properties
                  && a.properties[SystemTextJsonProperty] != "")
  {
    var property :=
      if a.typeName == NewtonsoftAttribute then NewtonsoftProperty
      else if a.typeName == SystemTextJsonAttribute then SystemTextJsonProperty
      else "";
    if property != "" && property in a.properties && a.properties[property] != "" then
      Some(a.properties[property])
    else
      None
  }

  /** Attribute `k` is the first attribute, in declaration order, that gives a name. */
  predicate FirstNaming(attributes: seq<Attribute>, k: nat)
  {
    && k < |attributes|
    && AttributeName(attributes[k]).Some?
    && forall m :: 0 <= m < k ==> AttributeName(attributes[m]).None?
  }

  /** The name given by the first attribute, in declaration order, that gives one. */
  function ExplicitName(attributes: seq<Attribute>): (r: Option<string>)
    ensures r.None? <==> forall k :: 0 <= k < |attributes| ==> AttributeName(attributes[k]).None?
    ensures forall k: nat :: FirstNaming(attributes, k) ==> r == AttributeName(attributes[k])
    decreases |attributes|
  {
    if attributes == [] then None
    else
      match AttributeName(attributes[0])
      case Some(name) =>
        assert forall k: nat :: FirstNaming(attributes, k) ==> k == 0;
        Some(name)
      case None =>
        var r := ExplicitName(attributes[1..]);
        assert forall k :: 1 <= k < |attributes| ==> attributes[k] == attributes[1..][k - 1];
        assert forall k: nat :: FirstNaming(attributes, k) ==> k >= 1 && FirstNaming(attributes[1..], k - 1);
        r
  }

  /** The JSON name of a member: the name the first naming attribute gives it, whatever
      the camel-case setting; with no naming attribute, its declared name, camel-cased
      when the resolver is configured so. */
  function GetJsonPropertyName(useCamelCase: bool, member: MemberInfo): (r: string)
    ensures forall k: nat :: FirstNaming(member.attributes, k) ==> r == AttributeName(member.attributes[k]).value
    ensures (forall k :: 0 <= k < |member.attributes| ==> AttributeName(member.attributes[k]).None?) ==>
              r == if useCamelCase then ToCamelCase(member.name) else member.name
    ensures (forall k :: 0 <= k < |member.attributes| ==> AttributeName(member.attributes[k]).None?) ==>
              |r| == |member.name| && (|member.name| > 0 && !('A' <= member.name[0] <= 'Z') ==> r == member.name)
  {
    match ExplicitName(member.attributes)
    case Some(name) => name
    case None => if useCamelCase then ToCamelCase(member.name) else member.name
  }

  // ---------------------------------------------------------------------------
  // Field references
  // ---------------------------------------------------------------------------

  /** `TryResolve`: the JSON path of a field reference, or `None` for any other expression.
      A named parameter is its name; a member access over a reference appends `.` and the
      member's JSON name; a unary node of any kind directly over such a member access
      resolves as that access; a `Convert` node resolves as its operand. */
  function TryResolve(useCamelCase: bool, e: Node): (r: Option<string>)
    ensures r.Some? ==> r.value != ""
    ensures r.Some? ==> e.Param? || e.Member? || e.Unary?
    decreases e
  {
    match e
    case Param(name) => if name != "" then Some(name) else None
    case Member(inner, member) =>
      (match TryResolve(useCamelCase, inner)
       case Some(path) => Some(path + "." + GetJsonPropertyName(useCamelCase, member))
       case None => None)
    case Unary(kind, operand) =>
      if operand.Member? && TryResolve(useCamelCase, operand.inner).Some? then
        Some(TryResolve(useCamelCase, operand.inner).value + "." + GetJsonPropertyName(useCamelCase, operand.member))
      else if kind == Convert then TryResolve(useCamelCase, operand)
      else None
    case _ => None
  }

  /** The resolver `CosmosDbQuery` uses when none is given, built with camel case on: it
      resolves exactly the field references, each to its camel-cased dotted path. */
  function DefaultResolve(e: Node): (r: Option<string>)
    ensures r.Some? <==> Chain(e).Some?
    ensures Chain(e).Some? ==> r == Some(Join(".", [Chain(e).value.0] + JsonNames(true, Chain(e).value.1)))
  {
    ResolvedPathShape(true, e);
    TryResolve(true, e)
  }

  /** The expression `root.m0.m1...` built from a parameter and a chain of member accesses. */
  function Access(root: string, members: seq<MemberInfo>): Node
    decreases |members|
  {
    if members == [] then Param(root)
    else Member(Access(root, members[..|members| - 1]), members[|members| - 1])
  }

  /** The JSON names of a chain of members. */
  function JsonNames(useCamelCase: bool, members: seq<MemberInfo>): (r: seq<string>)
    decreases |members|
  {
    if members == [] then []
    else JsonNames(useCamelCase, members[..|members| - 1]) + [GetJsonPropertyName(useCamelCase, members[|members| - 1])]
  }

  /** A member chain over a named parameter resolves to the parameter's name followed by
      the members' JSON names, separated by dots. */
  lemma {:induction false} AccessResolves(useCamelCase: bool, root: string, members: seq<MemberInfo>)
    requires root != ""
    ensures TryResolve(useCamelCase, Access(root, members)) == Some(Join(".", [root] + JsonNames(useCamelCase, members)))
    decreases |members|
  {
    if members != [] {
      var prefix := members[..|members| - 1];
      var last := members[|members| - 1];
      var name := GetJsonPropertyName(useCamelCase, last);
      var names := JsonNames(useCamelCase, prefix);
      assert Access(root, members) == Member(Access(root, prefix), last);
      AccessResolves(useCamelCase, root, prefix);
      assert [root] + JsonNames(useCamelCase, members) == ([root] + names) + [name];
      JoinSnoc(".", [root] + names, name);
    }
  }

  /** The field reference an expression denotes: the named parameter at its root and the
      members accessed from it, outermost last. A unary node of any kind directly over a
      member access, and a `Convert` node over anything, are looked through. */
  function Chain(e: Node): Option<(string, seq<MemberInfo>)>
    decreases e
  {
    match e
    case Param(name) => if name != "" then Some((name, [])) else None
    case Member(inner, member) =>
      (match Chain(inner)
       case Some((root, members)) => Some((root, members + [member]))
       case None => None)
    case Unary(kind, operand) => if operand.Member? || kind == Convert then Chain(operand) else None
    case _ => None
  }

  /** An expression resolves exactly when it denotes a field reference, and its path is
      the root parameter's name followed by the JSON names of the accessed members,
      separated by dots. */
  lemma {:induction false} ResolvedPathShape(useCamelCase: bool, e: Node)
    ensures TryResolve(useCamelCase, e).Some? <==> Chain(e).Some?
    ensures Chain(e).Some? ==>
              TryResolve(useCamelCase, e) == Some(Join(".", [Chain(e).value.0] + JsonNames(useCamelCase, Chain(e).value.1)))
    decreases e
  {
    match e
    case Param(name) =>
    case Member(inner, member) =>
      ResolvedPathShape(useCamelCase, inner);
      if Chain(inner).Some? {
        var (root, members) := Chain(inner).value;
        var last := GetJsonPropertyName(useCamelCase, member);
        assert (members + [member])[..|members|] == members;
        assert JsonNames(useCamelCase, members + [member]) == JsonNames(useCamelCase, members) + [last];
        JoinSnoc(".", [root] + JsonNames(useCamelCase, members), last);
        assert [root] + JsonNames(useCamelCase, members) + [last] == [root] + (JsonNames(useCamelCase, members) + [last]);
      }
    case Unary(kind, operand) =>
      ResolvedPathShape(useCamelCase, operand);
      if operand.Member? {
        UnaryOverMember(useCamelCase, kind, operand);
      }
    case _ =>
  }

  /** A `Convert` node is transparent: it resolves exactly as its operand does. */
  lemma ConvertTransparent(useCamelCase: bool, e: Node)
    ensures TryResolve(useCamelCase, Unary(Convert, e)) == TryResolve(useCamelCase, e)
  {
  }

  /** A unary node of any kind directly over a member access resolves as that access;
      any other unary node than `Convert` over anything else does not resolve. */
  lemma UnaryOverMember(useCamelCase: bool, kind: UnaryKind, e: Node)
    ensures e.Member? ==> TryResolve(useCamelCase, Unary(kind, e)) == TryResolve(useCamelCase, e)
    ensures !e.Member? && kind != Convert ==> TryResolve(useCamelCase, Unary(kind, e)).None?
  {
  }

  /** `c.SubDoc.Prop` resolves to `c.subDoc.prop` with camel case. */
  lemma NestedPropertyCamelCase()
    ensures TryResolve(true, Access("c", [MemberInfo("SubDoc", []), MemberInfo("Prop", [])])) == Some("c.subDoc.prop")
  {
    var subDoc, prop := MemberInfo("SubDoc", []), MemberInfo("Prop", []);
    assert [subDoc, prop][..1] == [subDoc] && [subDoc][..0] == [];
    assert Access("c", [subDoc]) == Member(Param("c"), subDoc);
    assert Access("c", [subDoc, prop]) == Member(Member(Param("c"), subDoc), prop);
    assert GetJsonPropertyName(true, subDoc) == "subDoc" by {
      assert ToCamelCase("SubDoc") == ['s'] + "ubDoc";
    }
    assert GetJsonPropertyName(true, prop) == "prop" by {
      assert ToCamelCase("Prop") == ['p'] + "rop";
    }
    assert TryResolve(true, Param("c")) == Some("c");
    assert TryResolve(true, Member(Param("c"), subDoc)) == Some("c" + "." + "subDoc");
    assert "c" + "." + "subDoc" == "c.subDoc";
    assert TryResolve(true, Member(Member(Param("c"), subDoc), prop)) == Some("c.subDoc" + "." + "prop");
    assert "c.subDoc" + "." + "prop" == "c.subDoc.prop";
  }

  /** `c.SubDoc.Prop` resolves to `c.SubDoc.Prop` without camel case. */
  lemma NestedPropertyAsDeclared()
    ensures TryResolve(false, Access("c", [MemberInfo("SubDoc", []), MemberInfo("Prop", [])])) == Some("c.SubDoc.Prop")
  {
    var subDoc, prop := MemberInfo("SubDoc", []), MemberInfo("Prop", []);
    assert [subDoc, prop][..1] == [subDoc] && [subDoc][..0] == [];
    assert Access("c", [subDoc]) == Member(Param("c"), subDoc);
    assert Access("c", [subDoc, prop]) == Member(Member(Param("c"), subDoc), prop);
    assert TryResolve(false, Param("c")) == Some("c");
    assert TryResolve(false, Member(Param("c"), subDoc)) == Some("c" + "." + "SubDoc");
    assert "c" + "." + "SubDoc" == "c.SubDoc";
    assert TryResolve(false, Member(Member(Param("c"), subDoc), prop)) == Some("c.SubDoc" + "." + "Prop");
    assert "c.SubDoc" + "." + "Prop" == "c.SubDoc.Prop";
  }

  /** With both naming attributes on one member, the one declared first gives the name. */
  lemma AttributeOrderExample()
    ensures var newtonsoft := Attribute(NewtonsoftAttribute, map[NewtonsoftProperty := "newtonsoft_prop"]);
            var systemText := Attribute(SystemTextJsonAttribute, map[SystemTextJsonProperty := "system_text"]);
            && GetJsonPropertyName(true, MemberInfo("Prop", [newtonsoft, systemText])) == "newtonsoft_prop"
            && GetJsonPropertyName(true, MemberInfo("Prop", [systemText, newtonsoft])) == "system_text"
  {
  }
}
