/** The part of a .NET expression tree the converter inspects. Member metadata
    (the member's name and its custom attributes) is carried in the tree instead of
    being read by reflection. */
module Expressions {
  import opened Templates

  /** The `ExpressionType` of a unary node; the resolver singles out `Convert`. */
  datatype UnaryKind = Convert | ConvertChecked | Negate | Not | ArrayLength | TypeAs | Quote

  /** A custom attribute: its type's simple name and the values of its string-valued
      public properties (a property that is missing, null or not a string is absent). */
  datatype Attribute = Attribute(typeName: string, properties: map<string, string>)

  /** A property or field: its declared name and its custom attributes in declaration order. */
  datatype MemberInfo = MemberInfo(name: string, attributes: seq<Attribute>)

  /** The value of a constant node: a string seen as a composite format string, or any
      other boxed value. */
  datatype ConstantValue = FormatString(format: seq<FormatItem>) | Boxed(value: Value)

  /** An expression node. `NoExpression` is a null `Expression` reference (the target of
      a static member access, for one); a parameter's name `""` stands for a null or
      empty name. */
  datatype Node =
    | NoExpression
    | Param(name: string)
    | Member(inner: Node, member: MemberInfo)
    | Unary(kind: UnaryKind, operand: Node)
    | Constant(value: ConstantValue)
    | Call(methodName: string, arguments: seq<Node>)
    | NewArray(elements: seq<Node>)
    | OtherNode
}
