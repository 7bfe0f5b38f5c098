/**
  Printing a Polars predicate tree as SQL text, and a reader for the printed
  grammar that recovers the tree.
*/
module SqlPrinter {
  import opened Wrappers
  import opened Sequences

  // The serialised tree.  A function node keeps its whole input list and the name
  // under "Boolean", if it has one; Other is any node the printer does not know.
  datatype Tree =
    | BinaryExpr(left: Tree, op: string, right: Tree)
    | Column(name: string)
    | Literal(value: Tree)
    | Dyn(value: Tree)
    | Int(n: int)
    | Function(input: seq<Tree>, boolean: Option<string>)
    | Cast(options: string, expr: Tree)
    | Other

  function OperationToSql(op: string): Option<string> {
    if op == "Lt" then Some("<")
    else if op == "LtEq" then Some("<=")
    else if op == "Gt" then Some(">")
    else if op == "GtEq" then Some(">=")
    else if op == "Eq" then Some("=")
    else if op == "Modulus" then Some("%")
    else if op == "And" then Some("AND")
    else if op == "Or" then Some("OR")
    else None
  }

  // Doubles every quote.
  function Doubled(name: string): string {
    if name == "" then ""
    else (if name[0] == '"' then ['"', '"'] else [name[0]]) + Doubled(name[1..])
  }

  function EscapeIdentifier(name: string): string {
    ['"'] + (Doubled(name) + ['"'])
  }

  function Decimal(n: nat): string {
    (if n < 10 then "" else Decimal(n / 10)) + [DigitChar(n % 10)]
  }

  function DigitChar(d: nat): char
    requires d < 10
  {
    '0' + d as char
  }

  function IntText(n: int): string {
    if n < 0 then ['-'] + Decimal(-n) else Decimal(n)
  }

  // None where the printer raises.
  function Print(t: Tree): Option<string> {
    match t
    case BinaryExpr(left, op, right) =>
      var l := Print(left);
      var o := OperationToSql(op);
      var r := Print(right);
      if l.Some? && o.Some? && r.Some?
      then Some("(" + (l.value + (" " + o.value + " " + (r.value + ")"))))
      else None
    case Column(name) => Some(EscapeIdentifier(name))
    case Literal(value) => Print(value)
    case Dyn(value) => Print(value)
    case Int(n) => Some(IntText(n))
    case Function(input, boolean) =>
      if input == [] || boolean == None then None
      else
        var arg := Print(input[0]);
        if arg == None then None
        else if boolean.value == "IsNull" then Some("(" + (arg.value + " IS NULL)"))
        else if boolean.value == "IsNotNull" then Some("(" + (arg.value + " IS NOT NULL)"))
        else None
    case Cast(options, expr) =>
      if options == "NonStrict" || (options == "Strict" && expr.Literal?) then Print(expr) else None
    case Other => None
  }

  // What a printed tree says, with the wrappers erased

  datatype Op = Lt | LtEq | Gt | GtEq | Eq | Modulus | And | Or

  datatype Expr =
    | Binary(left: Expr, op: Op, right: Expr)
    | Name(name: string)
    | Number(n: int)
    | IsNull(arg: Expr)
    | IsNotNull(arg: Expr)

  function OpOf(op: string): Option<Op> {
    if op == "Lt" then Some(Lt)
    else if op == "LtEq" then Some(LtEq)
    else if op == "Gt" then Some(Gt)
    else if op == "GtEq" then Some(GtEq)
    else if op == "Eq" then Some(Eq)
    else if op == "Modulus" then Some(Modulus)
    else if op == "And" then Some(And)
    else if op == "Or" then Some(Or)
    else None
  }

  function Erase(t: Tree): Option<Expr> {
    match t
    case BinaryExpr(left, op, right) =>
      var l := Erase(left);
      var r := Erase(right);
      if l.Some? && OpOf(op).Some? && r.Some? then Some(Binary(l.value, OpOf(op).value, r.value)) else None
    case Column(name) => Some(Name(name))
    case Literal(value) => Erase(value)
    case Dyn(value) => Erase(value)
    case Int(n) => Some(Number(n))
    case Function(input, boolean) =>
      if input == [] || boolean == None || Erase(input[0]) == None then None
      else if boolean.value == "IsNull" then Some(IsNull(Erase(input[0]).value))
      else if boolean.value == "IsNotNull" then Some(IsNotNull(Erase(input[0]).value))
      else None
    case Cast(options, expr) =>
      if options == "NonStrict" || (options == "Strict" && expr.Literal?) then Erase(expr) else None
    case Other => None
  }

  // The reader

  function Infix(op: Op): string {
    match op
    case Lt => " < "
    case LtEq => " <= "
    case Gt => " > "
    case GtEq => " >= "
    case Eq => " = "
    case Modulus => " % "
    case And => " AND "
    case Or => " OR "
  }

  function ReadInfix(s: string): (r: Option<Op>)
    ensures r.Some? ==> Infix(r.value) <= s
  {
    if " < " <= s then Some(Lt)
    else if " <= " <= s then Some(LtEq)
    else if " > " <= s then Some(Gt)
    else if " >= " <= s then Some(GtEq)
    else if " = " <= s then Some(Eq)
    else if " % " <= s then Some(Modulus)
    else if " AND " <= s then Some(And)
    else if " OR " <= s then Some(Or)
    else None
  }

  predicate IsDigit(c: char) {
    '0' <= c <= '9'
  }

  function TakeDigits(s: string): (r: string)
    ensures r <= s
  {
    if s == "" || !IsDigit(s[0]) then "" else [s[0]] + TakeDigits(s[1..])
  }

  function DigitsValue(s: string): nat {
    if s == "" then 0 else 10 * DigitsValue(s[..|s| - 1]) + CharDigit(s[|s| - 1])
  }

  function CharDigit(c: char): nat {
    if IsDigit(c) then (c - '0') as int else 0
  }

  function ReadNat(s: string): (r: Option<(nat, string)>)
    ensures r.Some? ==> |r.value.1| < |s|
  {
    var digits := TakeDigits(s);
    if digits == "" then None else Some((DigitsValue(digits), s[|digits|..]))
  }

  // Reads up to the closing quote.
  function ReadName(s: string): (r: Option<(string, string)>)
    ensures r.Some? ==> |r.value.1| < |s|
  {
    if s == "" then None
    else if s[0] != '"' then
      var rest := ReadName(s[1..]);
      if rest == None then None else Some(([s[0]] + rest.value.0, rest.value.1))
    else if |s| > 1 && s[1] == '"' then
      var rest := ReadName(s[2..]);
      if rest == None then None else Some((['"'] + rest.value.0, rest.value.1))
    else
      Some(("", s[1..]))
  }

  const IS_NULL := " IS NULL)"
  const IS_NOT_NULL := " IS NOT NULL)"

  function Read(s: string): (r: Option<(Expr, string)>)
    ensures r.Some? ==> |r.value.1| < |s|
    decreases |s|
  {
    if s == "" then None
    else if s[0] == '"' then
      var name := ReadName(s[1..]);
      if name == None then None else Some((Name(name.value.0), name.value.1))
    else if s[0] == '-' then
      var number := ReadNat(s[1..]);
      if number == None then None else Some((Number(-(number.value.0 as int)), number.value.1))
    else if s[0] == '(' then
      var first := Read(s[1..]);
      if first == None then None else ReadAfter(first.value.0, first.value.1)
    else
      var number := ReadNat(s);
      if number == None then None else Some((Number(number.value.0), number.value.1))
  }

  // Reads what follows the first operand inside parentheses.
  function ReadAfter(first: Expr, s: string): (r: Option<(Expr, string)>)
    ensures r.Some? ==> |r.value.1| < |s|
    decreases |s|
  {
    if IS_NULL <= s then Some((IsNull(first), s[|IS_NULL|..]))
    else if IS_NOT_NULL <= s then Some((IsNotNull(first), s[|IS_NOT_NULL|..]))
    else
      var op := ReadInfix(s);
      if op == None then None
      else
        var right := Read(s[|Infix(op.value)|..]);
        if right == None || right.value.1 == "" || right.value.1[0] != ')' then None
        else Some((Binary(first, op.value, right.value.0), right.value.1[1..]))
  }

  // Text of an erased tree

  function Show(e: Expr): string {
    match e
    case Binary(left, op, right) => "(" + (Show(left) + (Infix(op) + (Show(right) + ")")))
    case Name(name) => EscapeIdentifier(name)
    case Number(n) => IntText(n)
    case IsNull(arg) => "(" + (Show(arg) + IS_NULL)
    case IsNotNull(arg) => "(" + (Show(arg) + IS_NOT_NULL)
  }

  // A tree the printer knows: comparisons, logic and remainder, null tests on the
  // first input, literals under any wrapper, and casts that cannot fail.
  predicate Supported(t: Tree) {
    match t
    case BinaryExpr(left, op, right) =>
      op in {"Lt", "LtEq", "Gt", "GtEq", "Eq", "Modulus", "And", "Or"} && Supported(left) && Supported(right)
    case Column(_) => true
    case Literal(value) => Supported(value)
    case Dyn(value) => Supported(value)
    case Int(_) => true
    case Function(input, boolean) =>
      input != [] && Supported(input[0]) && boolean in {Some("IsNull"), Some("IsNotNull")}
    case Cast(options, expr) => (options == "NonStrict" || (options == "Strict" && expr.Literal?)) && Supported(expr)
    case Other => false
  }

  /** The printer succeeds exactly on the supported trees, and its text depends
      only on the erased tree. */
  lemma {:induction false} PrintsErased(t: Tree)
    ensures Print(t) == (if Erase(t).Some? then Some(Show(Erase(t).value)) else None)
    ensures Print(t).Some? <==> Supported(t)
  {
    match t
    case BinaryExpr(left, op, right) =>
      PrintsErased(left);
      PrintsErased(right);
      InfixText(op);
    case Column(_) =>
    case Literal(value) => PrintsErased(value);
    case Dyn(value) => PrintsErased(value);
    case Int(_) =>
    case Function(input, _) => if input != [] { PrintsErased(input[0]); }
    case Cast(_, expr) => PrintsErased(expr);
    case Other =>
  }

  lemma {:induction false} InfixText(op: string)
    ensures OperationToSql(op).Some? <==> OpOf(op).Some?
    ensures OpOf(op).Some? ==> Infix(OpOf(op).value) == " " + OperationToSql(op).value + " "
  {
  }

  // Reading back each piece

  // What may follow a printed expression: the end, a space or a closing parenthesis.
  predicate Stops(rest: string) {
    rest == "" || rest[0] == ' ' || rest[0] == ')'
  }

  lemma {:induction false} ReadDoubled(name: string, rest: string)
    requires rest == "" || rest[0] != '"'
    ensures ReadName(Doubled(name) + (['"'] + rest)) == Some((name, rest))
  {
    var s := Doubled(name) + (['"'] + rest);
    if name == "" {
      assert s == ['"'] + rest;
    } else {
      var tail := Doubled(name[1..]) + (['"'] + rest);
      ReadDoubled(name[1..], rest);
      assert name == [name[0]] + name[1..];
      if name[0] == '"' {
        Assoc(['"', '"'], Doubled(name[1..]), ['"'] + rest);
        assert s[2..] == tail;
      } else {
        Assoc([name[0]], Doubled(name[1..]), ['"'] + rest);
        assert s[1..] == tail;
      }
    }
  }

  lemma {:induction false} DecimalDigits(n: nat)
    ensures Decimal(n) != "" && forall i :: 0 <= i < |Decimal(n)| ==> IsDigit(Decimal(n)[i])
  {
    if n >= 10 {
      DecimalDigits(n / 10);
    }
  }

  lemma {:induction false} SnocValue(front: string, c: char)
    ensures DigitsValue(front + [c]) == 10 * DigitsValue(front) + CharDigit(c)
  {
    var s := front + [c];
    assert s[..|s| - 1] == front && s[|s| - 1] == c;
  }

  lemma {:induction false} DigitValue(d: nat)
    requires d < 10
    ensures CharDigit(DigitChar(d)) == d
  {
  }

  lemma {:induction false} DecimalValue(n: nat)
    ensures DigitsValue(Decimal(n)) == n
  {
    DigitValue(n % 10);
    if n < 10 {
      SnocValue("", DigitChar(n % 10));
    } else {
      DecimalValue(n / 10);
      SnocValue(Decimal(n / 10), DigitChar(n % 10));
    }
  }

  lemma {:induction false} TakeAllDigits(digits: string, rest: string)
    requires forall i :: 0 <= i < |digits| ==> IsDigit(digits[i])
    requires rest == "" || !IsDigit(rest[0])
    ensures TakeDigits(digits + rest) == digits
  {
    if digits == "" {
      assert digits + rest == rest;
    } else {
      TakeAllDigits(digits[1..], rest);
      assert (digits + rest)[1..] == digits[1..] + rest;
      assert digits == [digits[0]] + digits[1..];
    }
  }

  lemma {:induction false} ReadDecimal(n: nat, rest: string)
    requires Stops(rest)
    ensures ReadNat(Decimal(n) + rest) == Some((n, rest))
  {
    DecimalDigits(n);
    DecimalValue(n);
    TakeAllDigits(Decimal(n), rest);
    assert (Decimal(n) + rest)[|Decimal(n)|..] == rest;
  }

  lemma {:induction false} ReadInt(n: int, rest: string)
    requires Stops(rest)
    ensures Read(IntText(n) + rest) == Some((Number(n), rest))
  {
    if n < 0 {
      var s := ['-'] + Decimal(-n) + rest;
      ReadDecimal(-n, rest);
      assert s[0] == '-' && s[1..] == Decimal(-n) + rest;
    } else {
      ReadPlain(n, rest);
    }
  }

  lemma {:induction false} ReadPlain(n: nat, rest: string)
    requires Stops(rest)
    ensures Read(Decimal(n) + rest) == Some((Number(n), rest))
  {
    var s := Decimal(n) + rest;
    DecimalDigits(n);
    assert s[0] == Decimal(n)[0];
    ReadDecimal(n, rest);
  }

  lemma {:induction false} ReadIdentifier(name: string, rest: string)
    requires Stops(rest)
    ensures Read(EscapeIdentifier(name) + rest) == Some((Name(name), rest))
  {
    var s := EscapeIdentifier(name) + rest;
    ReadDoubled(name, rest);
    Assoc(['"'], Doubled(name) + ['"'], rest);
    Assoc(Doubled(name), ['"'], rest);
    assert s[1..] == Doubled(name) + (['"'] + rest);
  }

  lemma {:induction false} ReadInfixText(op: Op, rest: string)
    ensures ReadInfix(Infix(op) + rest) == Some(op) && (Infix(op) + rest)[|Infix(op)|..] == rest
    ensures !(IS_NULL <= Infix(op) + rest) && !(IS_NOT_NULL <= Infix(op) + rest)
  {
    var s := Infix(op) + rest;
    assert Infix(op) <= s;
    assert s[1] == Infix(op)[1] && s[2] == Infix(op)[2];
    assert IS_NULL[1] == 'I' && IS_NOT_NULL[1] == 'I';
  }

  lemma {:induction false} ReadOpened(s: string, first: Expr, tail: string)
    requires s != "" && s[0] == '(' && Read(s[1..]) == Some((first, tail))
    ensures Read(s) == ReadAfter(first, tail)
  {
  }

  lemma {:induction false} OpenedText(inner: string, tail: string, rest: string)
    ensures var s := "(" + (inner + tail) + rest; s[0] == '(' && s[1..] == inner + (tail + rest)
  {
    Assoc("(", inner + tail, rest);
    Assoc(inner, tail, rest);
  }

  // Reading text between parentheses starts with its first operand.
  lemma {:induction false} ReadParenthesised(inner: string, tail: string, rest: string, first: Expr)
    requires Read(inner + (tail + rest)) == Some((first, tail + rest))
    ensures Read("(" + (inner + tail) + rest) == ReadAfter(first, tail + rest)
  {
    OpenedText(inner, tail, rest);
    ReadOpened("(" + (inner + tail) + rest, first, tail + rest);
  }

  lemma {:induction false} AfterIsNull(first: Expr, rest: string)
    ensures ReadAfter(first, IS_NULL + rest) == Some((IsNull(first), rest))
  {
    assert IS_NULL <= IS_NULL + rest && (IS_NULL + rest)[|IS_NULL|..] == rest;
  }

  lemma {:induction false} AfterIsNotNull(first: Expr, rest: string)
    ensures ReadAfter(first, IS_NOT_NULL + rest) == Some((IsNotNull(first), rest))
  {
    assert IS_NULL[5] == 'U' && IS_NOT_NULL[5] == 'O' && (IS_NOT_NULL + rest)[5] == 'O';
    assert IS_NOT_NULL <= IS_NOT_NULL + rest && (IS_NOT_NULL + rest)[|IS_NOT_NULL|..] == rest;
  }

  lemma {:induction false} AfterInfix(first: Expr, op: Op, right: Expr, text: string, rest: string)
    requires Read(text + (")" + rest)) == Some((right, ")" + rest))
    ensures ReadAfter(first, Infix(op) + (text + (")" + rest))) == Some((Binary(first, op, right), rest))
  {
    ReadInfixText(op, text + (")" + rest));
    assert (")" + rest)[1..] == rest;
  }

  /** The reader recovers an expression from its text and leaves what follows. */
  lemma {:induction false} ReadsShown(e: Expr, rest: string)
    requires Stops(rest)
    ensures Read(Show(e) + rest) == Some((e, rest))
    decreases e
  {
    match e
    case Name(name) => ReadIdentifier(name, rest);
    case Number(n) => ReadInt(n, rest);
    case IsNull(arg) =>
      ReadsShown(arg, IS_NULL + rest);
      ReadParenthesised(Show(arg), IS_NULL, rest, arg);
      AfterIsNull(arg, rest);
    case IsNotNull(arg) =>
      ReadsShown(arg, IS_NOT_NULL + rest);
      ReadParenthesised(Show(arg), IS_NOT_NULL, rest, arg);
      AfterIsNotNull(arg, rest);
    case Binary(left, op, right) =>
      var tail := Infix(op) + (Show(right) + ")");
      TailText(op, Show(right), rest);
      ReadsShown(left, tail + rest);
      ReadParenthesised(Show(left), tail, rest, left);
      ReadsShown(right, ")" + rest);
      AfterInfix(left, op, right, Show(right), rest);
  }

  lemma {:induction false} TailText(op: Op, text: string, rest: string)
    ensures Infix(op) + (text + ")") + rest == Infix(op) + (text + (")" + rest))
    ensures Stops(Infix(op) + (text + ")") + rest)
  {
    Assoc(Infix(op), text + ")", rest);
    Assoc(text, ")", rest);
  }

  /** A printed tree is read back, wrappers aside. */
  lemma {:induction false} ReadsPrinted(t: Tree)
    requires Print(t).Some?
    ensures Erase(t).Some? && Read(Print(t).value) == Some((Erase(t).value, ""))
  {
    PrintsErased(t);
    ReadsShown(Erase(t).value, "");
    assert Print(t).value + "" == Print(t).value;
  }

  /** Two trees print alike exactly when they are equal once wrappers are erased. */
  lemma {:induction false} PrintsAlikeExactlyWhen(t: Tree, u: Tree)
    requires Print(t).Some? && Print(u).Some?
    ensures Print(t) == Print(u) <==> Erase(t) == Erase(u)
  {
    PrintsErased(t);
    PrintsErased(u);
    ReadsPrinted(t);
    ReadsPrinted(u);
  }
}
