/** The criterion language of the file system (the `criteria` package).

    A criterion is an immutable value: a simple test on a file's name, size or
    type, the built-in `IsDocument` test, a negation, or an `&&`/`||` pair. A
    criterion is evaluated against a snapshot of the file it is asked about
    (`FileInfo`). Evaluation yields `None` wherever the Java code throws at run
    time: the substring of a one-character quoted literal, a size literal that
    no longer parses, or a missing (null) criterion reached during evaluation. */
module Criteria {
  import opened Outcomes
  import opened Text
  import FileTree

  /** What a criterion can observe of a file: its name, whether it is a Document,
      its type (a Document's only), and its size as File.getSize computes it. */
  datatype FileInfo = FileInfo(name: string, isDocument: bool, docType: string, size: int)

  datatype Criterion =
    | NameCriterion(name: string, op: string, value: string)
    | SizeCriterion(name: string, op: string, value: string)
    | TypeCriterion(name: string, op: string, value: string)
      /** The built-in criterion, named `IsDocument`, with empty operator and value. */
    | IsDocumentCriterion
    | Negation(name: string, target: Criterion)
    | Binary(name: string, operand: string, left: Criterion, right: Criterion)
      /** A null reference where a criterion is expected (see CVFS.createSimpleCriterion). */
    | NullCriterion

  /** The name under which the built-in criterion is registered. */
  const IsDocumentName: string := "IsDocument"

  /** The six comparison operators FileSizeCriterion accepts. */
  const SizeOperators: seq<string> := [">", "<", ">=", "<=", "==", "!="]

  /** The two operands BinaryCompositeCriterion accepts. */
  const BinaryOperands: seq<string> := ["&&", "||"]

  /** FileCriterion's name check: length exactly 2 UTF-16 code units (only when
      `checkLength`), then the `^[a-zA-Z0-9]+$` pattern, which always applies. */
  function ValidateCriterionName(name: string, checkLength: bool): (r: Outcome)
    ensures r.Pass? <==> (!checkLength || Utf16Length(name) == 2) && IsAlphanumericWord(name)
    ensures checkLength && Utf16Length(name) != 2 ==> r == Fail(CriterionNameLength)
    ensures r.Fail? && (!checkLength || Utf16Length(name) == 2) ==> r == Fail(CriterionNameNotAlphanumeric)
  {
    if checkLength && Utf16Length(name) != 2 then Fail(CriterionNameLength)
    else if !IsAlphanumericWord(name) then Fail(CriterionNameNotAlphanumeric)
    else Pass
  }

  /** The name check every user-defined criterion undergoes (the one-argument
      FileCriterion constructor, which always checks the length). */
  predicate ValidCriterionName(name: string) {
    ValidateCriterionName(name, true).Pass?
  }

  /** One character above U+FFFF is two code units: it passes the length check
      and is then rejected by the pattern. */
  lemma SupplementaryCriterionName()
    ensures ValidateCriterionName("\U{1F600}", true) == Fail(CriterionNameNotAlphanumeric)
  {
  }

  /** The built-in name passes only because its length check is switched off. */
  lemma IsDocumentNameExempt()
    ensures ValidateCriterionName(IsDocumentName, false) == Pass
    ensures ValidateCriterionName(IsDocumentName, true) == Fail(CriterionNameLength)
  {
    assert forall i :: 0 <= i < |IsDocumentName| ==> IsAsciiAlphanumeric(IsDocumentName[i]);
  }

  /** A user-defined criterion name is exactly two ASCII letters or digits. */
  lemma ValidCriterionNameIff(name: string)
    ensures ValidCriterionName(name) <==>
      |name| == 2 && IsAsciiAlphanumeric(name[0]) && IsAsciiAlphanumeric(name[1])
  {
    if IsAlphanumericWord(name) {
      AlphanumericUtf16Length(name);
    }
    if |name| == 2 && IsAsciiAlphanumeric(name[0]) && IsAsciiAlphanumeric(name[1]) {
      assert forall i :: 0 <= i < |name| ==> IsAsciiAlphanumeric(name[i]) by {
        forall i | 0 <= i < |name| ensures IsAsciiAlphanumeric(name[i]) {
          assert i == 0 || i == 1;
        }
      }
    }
  }

  /** `value.startsWith("\"") && value.endsWith("\"")`; a lone `"` passes. */
  predicate Quoted(value: string) {
    |value| >= 1 && value[0] == '"' && value[|value| - 1] == '"'
  }

  /** `value.substring(1, value.length() - 1)`, defined only when it does not throw. */
  function Unquote(value: string): (r: string)
    requires |value| >= 2
    ensures |r| == |value| - 2
    ensures forall i :: 0 <= i < |r| ==> r[i] == value[i + 1]
  {
    value[1..|value| - 1]
  }

  /** The FileNameCriterion constructor: the name first, then the operator
      `contains`, then the quoted value. */
  function NewNameCriterion(name: string, op: string, value: string): (r: Result<Criterion>)
    ensures r.Ok? <==> ValidCriterionName(name) && op == "contains" && Quoted(value)
    ensures r.Ok? ==> r.value == NameCriterion(name, op, value)
    ensures !ValidCriterionName(name) ==> r == Err(ValidateCriterionName(name, true).error)
    ensures ValidCriterionName(name) && op != "contains" ==> r == Err(InvalidOperator)
    ensures ValidCriterionName(name) && op == "contains" && !Quoted(value) ==> r == Err(InvalidValue)
  {
    var v := ValidateCriterionName(name, true);
    if v.Fail? then Err(v.error)
    else if op != "contains" then Err(InvalidOperator)
    else if !Quoted(value) then Err(InvalidValue)
    else Ok(NameCriterion(name, op, value))
  }

  /** The FileSizeCriterion constructor: the name first, then one of the six
      operators, then a value `Long.parseLong` accepts. */
  function NewSizeCriterion(name: string, op: string, value: string): (r: Result<Criterion>)
    ensures r.Ok? <==> ValidCriterionName(name) && op in SizeOperators && ParseLong(value).Some?
    ensures r.Ok? ==> r.value == SizeCriterion(name, op, value)
    ensures !ValidCriterionName(name) ==> r == Err(ValidateCriterionName(name, true).error)
    ensures ValidCriterionName(name) && op !in SizeOperators ==> r == Err(InvalidOperator)
    ensures ValidCriterionName(name) && op in SizeOperators && ParseLong(value).None? ==> r == Err(InvalidValue)
  {
    var v := ValidateCriterionName(name, true);
    if v.Fail? then Err(v.error)
    else if op !in SizeOperators then Err(InvalidOperator)
    else if ParseLong(value).None? then Err(InvalidValue)
    else Ok(SizeCriterion(name, op, value))
  }

  /** The FileTypeCriterion constructor: the name first, then the operator
      `equals`, then the quoted value. */
  function NewTypeCriterion(name: string, op: string, value: string): (r: Result<Criterion>)
    ensures r.Ok? <==> ValidCriterionName(name) && op == "equals" && Quoted(value)
    ensures r.Ok? ==> r.value == TypeCriterion(name, op, value)
    ensures !ValidCriterionName(name) ==> r == Err(ValidateCriterionName(name, true).error)
    ensures ValidCriterionName(name) && op != "equals" ==> r == Err(InvalidOperator)
    ensures ValidCriterionName(name) && op == "equals" && !Quoted(value) ==> r == Err(InvalidValue)
  {
    var v := ValidateCriterionName(name, true);
    if v.Fail? then Err(v.error)
    else if op != "equals" then Err(InvalidOperator)
    else if !Quoted(value) then Err(InvalidValue)
    else Ok(TypeCriterion(name, op, value))
  }

  /** The NegationCompositeCriterion constructor: only the name is checked; the
      target is taken as it is. */
  function NewNegation(name: string, target: Criterion): (r: Result<Criterion>)
    ensures r.Ok? <==> ValidCriterionName(name)
    ensures r.Ok? ==> r.value == Negation(name, target)
    ensures r.Err? ==> r.error == ValidateCriterionName(name, true).error
  {
    var v := ValidateCriterionName(name, true);
    if v.Fail? then Err(v.error) else Ok(Negation(name, target))
  }

  /** The BinaryCompositeCriterion constructor: the name first, then the operand. */
  function NewBinary(name: string, operand: string, left: Criterion, right: Criterion): (r: Result<Criterion>)
    ensures r.Ok? <==> ValidCriterionName(name) && operand in BinaryOperands
    ensures r.Ok? ==> r.value == Binary(name, operand, left, right)
    ensures !ValidCriterionName(name) ==> r == Err(ValidateCriterionName(name, true).error)
    ensures ValidCriterionName(name) && operand !in BinaryOperands ==> r == Err(InvalidOperand)
  {
    var v := ValidateCriterionName(name, true);
    if v.Fail? then Err(v.error)
    else if operand !in BinaryOperands then Err(InvalidOperand)
    else Ok(Binary(name, operand, left, right))
  }

  /** The `switch` of FileSizeCriterion.validateFile; an operator outside the
      six leaves the result at its initial `false`. */
  function Compare(op: string, size: int, value: int): bool {
    if op == ">" then size > value
    else if op == "<" then size < value
    else if op == ">=" then size >= value
    else if op == "<=" then size <= value
    else if op == "==" then size == value
    else if op == "!=" then size != value
    else false
  }

  /** `validateFile` of every criterion class; `None` where Java throws.
      `||` and `&&` short-circuit as in Java, and any operand other than `||`
      is treated as `&&`. */
  function Eval(c: Criterion, f: FileInfo): Option<bool> {
    match c
    case NameCriterion(_, _, value) =>
      if |value| < 2 then None else Some(Contains(f.name, Unquote(value)))
    case SizeCriterion(_, op, value) =>
      var n := ParseLong(value);
      if n.None? then None else Some(Compare(op, f.size, n.value))
    case TypeCriterion(_, _, value) =>
      if !f.isDocument then Some(false)
      else if |value| < 2 then None
      else Some(f.docType == Unquote(value))
    case IsDocumentCriterion =>
      Some(f.isDocument)
    case Negation(_, target) =>
      var t := Eval(target, f);
      if t.None? then None else Some(!t.value)
    case Binary(_, operand, left, right) =>
      var l := Eval(left, f);
      if l.None? then None
      else if operand == "||" then (if l.value then Some(true) else Eval(right, f))
      else (if !l.value then Some(false) else Eval(right, f))
    case NullCriterion =>
      None
  }

  /** An accepted name criterion matches exactly the files whose name contains
      the literal without its quotes, except the lone `"` literal, which the
      constructor accepts and whose evaluation always throws. */
  lemma NameCriterionMeaning(name: string, op: string, value: string, f: FileInfo)
    requires NewNameCriterion(name, op, value).Ok?
    ensures Eval(NewNameCriterion(name, op, value).value, f).None? <==> value == "\""
    ensures value != "\"" ==>
      |value| >= 2 && Eval(NewNameCriterion(name, op, value).value, f) == Some(Contains(f.name, Unquote(value)))
  {
    if |value| < 2 {
      assert |value| == 1 && value[0] == '"';
      assert value == "\"";
    }
  }

  /** The literal `""` matches every file. */
  lemma EmptyLiteralMatchesAll(name: string, op: string, f: FileInfo)
    ensures Eval(NameCriterion(name, op, "\"\""), f) == Some(true)
  {
    assert Unquote("\"\"") == "";
    ContainsEmpty(f.name);
  }

  /** A size criterion with a parsable literal compares the file's size with
      the literal's value, and the derived operators agree with the basic ones:
      `>=` is `>` or `==`, `<=` is `<` or `==`, `!=` is the complement of `==`,
      and `<` is the complement of `>=`. */
  lemma SizeOperatorRelations(name: string, value: string, f: FileInfo)
    requires ParseLong(value).Some?
    ensures forall op :: Eval(SizeCriterion(name, op, value), f) == Some(Compare(op, f.size, ParseLong(value).value))
    ensures Eval(SizeCriterion(name, ">=", value), f).value ==
      (Eval(SizeCriterion(name, ">", value), f).value || Eval(SizeCriterion(name, "==", value), f).value)
    ensures Eval(SizeCriterion(name, "<=", value), f).value ==
      (Eval(SizeCriterion(name, "<", value), f).value || Eval(SizeCriterion(name, "==", value), f).value)
    ensures Eval(SizeCriterion(name, "!=", value), f).value == !Eval(SizeCriterion(name, "==", value), f).value
    ensures Eval(SizeCriterion(name, "<", value), f).value == !Eval(SizeCriterion(name, ">=", value), f).value
  {
  }

  /** Every accepted size criterion evaluates without failing, on Documents and
      Directories alike. */
  lemma SizeCriterionTotal(name: string, op: string, value: string, f: FileInfo)
    requires NewSizeCriterion(name, op, value).Ok?
    ensures Eval(NewSizeCriterion(name, op, value).value, f) == Some(Compare(op, f.size, ParseLong(value).value))
  {
  }

  /** A type criterion never matches a file that is not a Document, whatever its
      literal. */
  lemma TypeCriterionSkipsDirectories(name: string, op: string, value: string, f: FileInfo)
    requires !f.isDocument
    ensures Eval(TypeCriterion(name, op, value), f) == Some(false)
  {
  }

  /** On a Document, an accepted type criterion matches iff the type equals the
      literal without its quotes; the lone `"` literal makes evaluation throw. */
  lemma TypeCriterionMeaning(name: string, op: string, value: string, f: FileInfo)
    requires NewTypeCriterion(name, op, value).Ok? && f.isDocument
    ensures Eval(NewTypeCriterion(name, op, value).value, f).None? <==> value == "\""
    ensures value != "\"" ==>
      |value| >= 2 && Eval(NewTypeCriterion(name, op, value).value, f) == Some(f.docType == Unquote(value))
  {
    if |value| < 2 {
      assert |value| == 1 && value[0] == '"';
      assert value == "\"";
    }
  }

  /** A literal outside the four document types matches no file, given that
      Documents only ever carry one of those types. */
  lemma TypeOutsideAllowedMatchesNothing(name: string, op: string, value: string, f: FileInfo)
    requires |value| >= 2 && Unquote(value) !in FileTree.DocumentTypes
    requires f.isDocument ==> f.docType in FileTree.DocumentTypes
    ensures Eval(TypeCriterion(name, op, value), f) == Some(false)
  {
  }

  /** `IsDocument` matches exactly the Documents; a Directory never matches. */
  lemma IsDocumentMeaning(f: FileInfo)
    ensures Eval(IsDocumentCriterion, f).Some?
    ensures Eval(IsDocumentCriterion, f).value <==> f.isDocument
  {
  }

  /** Negation is the complement of its target, and fails exactly when the
      target does. */
  lemma NegationComplement(name: string, target: Criterion, f: FileInfo)
    ensures Eval(Negation(name, target), f).None? <==> Eval(target, f).None?
    ensures Eval(target, f).Some? ==> Eval(Negation(name, target), f) == Some(!Eval(target, f).value)
  {
  }

  /** Negating a negation evaluates exactly like the original criterion. */
  lemma DoubleNegation(n1: string, n2: string, c: Criterion, f: FileInfo)
    ensures Eval(Negation(n1, Negation(n2, c)), f) == Eval(c, f)
  {
    NegationComplement(n2, c, f);
    NegationComplement(n1, Negation(n2, c), f);
  }

  /** When both operands evaluate, `||` is their disjunction and every other
      operand (`&&` among them) their conjunction; swapping the operands then
      does not change the answer. */
  lemma BinaryMeaning(name: string, operand: string, a: Criterion, b: Criterion, f: FileInfo)
    requires Eval(a, f).Some? && Eval(b, f).Some?
    ensures operand == "||" ==> Eval(Binary(name, operand, a, b), f) == Some(Eval(a, f).value || Eval(b, f).value)
    ensures operand != "||" ==> Eval(Binary(name, operand, a, b), f) == Some(Eval(a, f).value && Eval(b, f).value)
    ensures Eval(Binary(name, operand, a, b), f) == Eval(Binary(name, operand, b, a), f)
  {
  }

  /** Symmetry needs both operands to evaluate: `IsDocument || <null>` holds of
      a Document, while `<null> || IsDocument` throws. */
  lemma BinaryShortCircuitAsymmetric(name: string, f: FileInfo)
    requires f.isDocument
    ensures Eval(Binary(name, "||", IsDocumentCriterion, NullCriterion), f) == Some(true)
    ensures Eval(Binary(name, "||", NullCriterion, IsDocumentCriterion), f) == None
  {
  }

  /** Criteria whose evaluation can never throw: simple criteria with literals
      long enough to unquote or that parse, and composites of such. */
  predicate Total(c: Criterion) {
    match c
    case NameCriterion(_, _, value) => |value| >= 2
    case SizeCriterion(_, _, value) => ParseLong(value).Some?
    case TypeCriterion(_, _, value) => |value| >= 2
    case IsDocumentCriterion => true
    case Negation(_, target) => Total(target)
    case Binary(_, _, left, right) => Total(left) && Total(right)
    case NullCriterion => false
  }

  /** A total criterion evaluates on every file. */
  lemma {:induction false} TotalEvaluates(c: Criterion, f: FileInfo)
    requires Total(c)
    ensures Eval(c, f).Some?
  {
    match c
    case Negation(_, target) =>
      TotalEvaluates(target, f);
    case Binary(_, _, left, right) =>
      TotalEvaluates(left, f);
      TotalEvaluates(right, f);
    case _ =>
  }

  /** What the constructors accept is total, except the lone `"` literal. */
  lemma AcceptedSimpleTotal(name: string, op: string, value: string)
    requires value != "\""
    ensures NewNameCriterion(name, op, value).Ok? ==> Total(NewNameCriterion(name, op, value).value)
    ensures NewSizeCriterion(name, op, value).Ok? ==> Total(NewSizeCriterion(name, op, value).value)
    ensures NewTypeCriterion(name, op, value).Ok? ==> Total(NewTypeCriterion(name, op, value).value)
  {
    if |value| == 1 {
      assert value == [value[0]];
    }
  }
}
