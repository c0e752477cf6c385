// The expression entities: a text that is stored with its whitespace
// removed, and the tables that register client functions by name. There are
// three generations of them: Entities/StringExpression.java (text and two
// tables), entities/StringExpression.java with its subclass
// entities/MathStringExpression.java (the same, split in two), and the root
// StringExpression.java (text and a single one-argument table).

/** Entities/StringExpression.java. */
module MathEntity {
  import opened Text
  import MathParsing

  class StringExpression {
    var expression: string
    var one: map<string, real -> real>
    var two: map<string, (real, real) -> real>

    /** The stored text never holds whitespace. */
    predicate Valid()
      reads this
    {
      NoWhitespace(expression)
    }

    constructor(expression: string)
      ensures Valid() && this.expression == StripWhitespace(expression)
      ensures one == map[] && two == map[]
    {
      this.expression := StripWhitespace(expression);
      one := map[];
      two := map[];
    }

    method SetExpression(expression: string)
      modifies this
      ensures Valid() && this.expression == StripWhitespace(expression)
      ensures one == old(one) && two == old(two)
    {
      this.expression := StripWhitespace(expression);
    }

    /** The text last stored, free of whitespace. */
    function GetExpression(): (r: string)
      requires Valid()
      reads this
      ensures NoWhitespace(r) && StripWhitespace(r) == r
    {
      StripWhitespaceKeepsStripped(expression);
      expression
    }

    method SetClientFunctionWithOneArgument(name: string, f: real -> real)
      modifies this
      ensures one == old(one)[name := f]
      ensures two == old(two) && expression == old(expression)
    {
      one := one[name := f];
    }

    method SetClientFunctionWithTwoArgument(name: string, f: (real, real) -> real)
      modifies this
      ensures two == old(two)[name := f]
      ensures one == old(one) && expression == old(expression)
    {
      two := two[name := f];
    }

    /** Both tables, as the evaluator and the binder consult them. */
    function Functions(): MathParsing.ClientFunctions
      reads this
    {
      MathParsing.ClientFunctions(one, two)
    }
  }
}

/** entities/StringExpression.java and entities/MathStringExpression.java. */
module Entities {
  import opened Text
  import MathParsing

  /** The base entity: only the text. LogicStringExpression is this class unchanged. */
  class StringExpression {
    var expression: string

    predicate Valid()
      reads this
    {
      NoWhitespace(expression)
    }

    constructor(expression: string)
      ensures Valid() && this.expression == StripWhitespace(expression)
    {
      this.expression := StripWhitespace(expression);
    }

    method SetExpression(expression: string)
      modifies this
      ensures Valid() && this.expression == StripWhitespace(expression)
    {
      this.expression := StripWhitespace(expression);
    }

    function GetExpression(): (r: string)
      requires Valid()
      reads this
      ensures NoWhitespace(r) && StripWhitespace(r) == r
    {
      StripWhitespaceKeepsStripped(expression);
      expression
    }
  }

  /** The subclass with the two client function tables; the inherited part is the object `text`. */
  class MathStringExpression {
    const text: StringExpression
    var one: map<string, real -> real>
    var two: map<string, (real, real) -> real>

    constructor(expression: string)
      ensures fresh(text) && text.Valid() && text.expression == StripWhitespace(expression)
      ensures one == map[] && two == map[]
    {
      text := new StringExpression(expression);
      one := map[];
      two := map[];
    }

    method SetClientFunctionWithOneArgument(name: string, f: real -> real)
      modifies this
      ensures one == old(one)[name := f] && two == old(two)
    {
      one := one[name := f];
    }

    method SetClientFunctionWithTwoArgument(name: string, f: (real, real) -> real)
      modifies this
      ensures two == old(two)[name := f] && one == old(one)
    {
      two := two[name := f];
    }

    function Functions(): MathParsing.ClientFunctions
      reads this
    {
      MathParsing.ClientFunctions(one, two)
    }
  }
}

/** The root StringExpression.java: the text and one table of one-argument functions. */
module RootEntity {
  import opened Text
  import MathParsing

  class StringExpression {
    var expression: string
    var clientFunctions: map<string, real -> real>

    predicate Valid()
      reads this
    {
      NoWhitespace(expression)
    }

    constructor(expression: string)
      ensures Valid() && this.expression == StripWhitespace(expression)
      ensures clientFunctions == map[]
    {
      this.expression := StripWhitespace(expression);
      clientFunctions := map[];
    }

    method SetExpression(expression: string)
      modifies this
      ensures Valid() && this.expression == StripWhitespace(expression)
      ensures clientFunctions == old(clientFunctions)
    {
      this.expression := StripWhitespace(expression);
    }

    function GetExpression(): (r: string)
      requires Valid()
      reads this
      ensures NoWhitespace(r) && StripWhitespace(r) == r
    {
      StripWhitespaceKeepsStripped(expression);
      expression
    }

    method SetClientFunction(name: string, f: real -> real)
      modifies this
      ensures clientFunctions == old(clientFunctions)[name := f]
      ensures expression == old(expression)
    {
      clientFunctions := clientFunctions[name := f];
    }

    /**
     * The tables the root MathStringExpressionParser asks for: its one table
     * serves one-argument calls, and no two-argument function is registered.
     */
    function Functions(): (r: MathParsing.ClientFunctions)
      reads this
      ensures r.two == map[]
    {
      MathParsing.ClientFunctions(clientFunctions, map[])
    }
  }
}
