/** The AST code generator (src/bin/generate_ast.rs): reads grammar lines of
    the form `Name : Type field, Type field` and appends the Rust source of the
    expression types and their visitor to a text buffer. */
module GenerateAst {
  import opened Outcomes
  import opened Strings

  const RuleSeparator: string := " : "
  const FieldSeparator: string := ", "
  const TypeSeparator: string := " "

  /** The grammar lines `main` passes to `define_ast`. */
  const ExprGrammar: seq<string> := [
    "Binary : Expr left, Token operator, Expr right",
    "Grouping : Expr expression",
    "Literal : String value",
    "Unary : Token operator, Expr right"
  ]

  datatype Field = Field(fieldType: string, name: string)
  datatype Rule = Rule(name: string, fields: seq<Field>)

  // ---------------------------------------------------------------------------
  // Reading grammar lines

  /** A field `Type name`: the type is the text before the first space. It
      fails exactly when the piece has no space; otherwise the type has no
      space and the piece is the field written back. */
  function ParseField(piece: string): (r: Option<Field>)
    ensures r.None? <==> forall k :: 0 <= k < |piece| ==> piece[k] != ' '
    ensures r.Some? ==> FormatField(r.value) == piece
                        && forall k :: 0 <= k < |r.value.fieldType| ==> r.value.fieldType[k] != ' '
  {
    SpaceMatches(piece);
    match SplitOnce(piece, TypeSeparator)
    case None => None
    case Some((fieldType, name)) =>
      assert forall k :: 0 <= k < |fieldType| ==> fieldType[k] == piece[k];
      Some(Field(fieldType, name))
  }

  /** The space pattern occurs at an index exactly where the text has a space. */
  lemma SpaceMatches(s: string)
    ensures forall i :: 0 <= i < |s| ==> (MatchesAt(s, TypeSeparator, i) <==> s[i] == ' ')
    ensures !MatchesAt(s, TypeSeparator, |s|)
  {
    forall i | 0 <= i < |s| ensures MatchesAt(s, TypeSeparator, i) <==> s[i] == ' ' {
      assert s[i..i + 1] == [s[i]];
    }
  }

  /** Applies `f` to every element in order; `None` when one application
      fails, as the source's loops stop at the first `unwrap` that panics. */
  function All<A, B>(xs: seq<A>, f: A -> Option<B>): (r: Option<seq<B>>)
    ensures r.Some? <==> forall k :: 0 <= k < |xs| ==> f(xs[k]).Some?
    ensures r.Some? ==> |r.value| == |xs| && forall k :: 0 <= k < |xs| ==> r.value[k] == f(xs[k]).value
  {
    if xs == [] then Some([])
    else
      match (All(xs[..|xs| - 1], f), f(xs[|xs| - 1]))
      case (Some(ys), Some(y)) => Some(ys + [y])
      case _ => None
  }

  lemma AllSnoc<A, B>(xs: seq<A>, i: nat, f: A -> Option<B>)
    requires i < |xs| && All(xs[..i], f).Some? && f(xs[i]).Some?
    ensures All(xs[..i + 1], f) == Some(All(xs[..i], f).value + [f(xs[i]).value])
  {
    assert xs[..i + 1][..i] == xs[..i];
  }

  /** All fields, or `None` when one of them has no space. */
  function ParseFields(pieces: seq<string>): Option<seq<Field>> {
    All(pieces, ParseField)
  }

  /** The rule name: the text before the first ` : `. It fails exactly when
      the line has no ` : `; otherwise the line starts with the name and
      ` : `, and the name is cut off whole. */
  function RuleName(description: string): (r: Option<string>)
    ensures r.None? <==> NoMatchBetween(description, RuleSeparator, 0, |description| + 1)
    ensures r.Some? ==> r.value + RuleSeparator <= description && CutsAtEnd(r.value, RuleSeparator)
  {
    match SplitOnce(description, RuleSeparator)
    case None => None
    case Some((name, rest)) =>
      SplitOnceCutsAtEnd(description, RuleSeparator);
      assert description == (name + RuleSeparator) + rest;
      Some(name)
  }

  /** All rule names, or `None` when one line has no ` : `. */
  function RuleNames(types: seq<string>): Option<seq<string>> {
    All(types, RuleName)
  }

  /** A whole grammar line: the name, then the fields separated by `, `. It
      fails on a line without a rule name; the rule it reads carries the
      line's rule name and at least one field. */
  function ParseRule(description: string): (r: Option<Rule>)
    ensures RuleName(description).None? ==> r.None?
    ensures r.Some? ==> RuleName(description) == Some(r.value.name) && r.value.fields != []
  {
    match SplitOnce(description, RuleSeparator)
    case None => None
    case Some((name, producer)) =>
      match ParseFields(Split(producer, FieldSeparator))
      case None => None
      case Some(fields) => Some(Rule(name, fields))
  }

  /** All grammar lines, or `None` when one of them is malformed. The rules
      are read line by line, in order, and carry the lines' rule names. */
  function ParseRules(types: seq<string>): (r: Option<seq<Rule>>)
    ensures r.Some? <==> forall k :: 0 <= k < |types| ==> ParseRule(types[k]).Some?
    ensures r.Some? ==> |r.value| == |types|
                        && forall k :: 0 <= k < |types| ==> r.value[k] == ParseRule(types[k]).value
    ensures r.Some? ==> forall k :: 0 <= k < |types| ==> RuleName(types[k]) == Some(r.value[k].name)
  {
    All(types, ParseRule)
  }

  function Names(rules: seq<Rule>): (names: seq<string>)
    ensures |names| == |rules| && forall k :: 0 <= k < |rules| ==> names[k] == rules[k].name
  {
    seq(|rules|, k requires 0 <= k < |rules| => rules[k].name)
  }

  // ---------------------------------------------------------------------------
  // Writing grammar lines back

  function FormatField(f: Field): string {
    f.fieldType + TypeSeparator + f.name
  }

  function FormatFields(fields: seq<Field>): (pieces: seq<string>)
    ensures |pieces| == |fields| && forall k :: 0 <= k < |fields| ==> pieces[k] == FormatField(fields[k])
  {
    seq(|fields|, k requires 0 <= k < |fields| => FormatField(fields[k]))
  }

  function FormatRule(r: Rule): string
    requires r.fields != []
  {
    r.name + RuleSeparator + Join(FormatFields(r.fields), FieldSeparator)
  }

  /** Rules whose grammar line reads back as the same rule: the name holds no
      ` : ` that would be found first, field types hold no space, and the
      field texts can be told apart at `, `. */
  predicate WellFormedRule(r: Rule) {
    && r.fields != []
    && CutsAtEnd(r.name, RuleSeparator)
    && (forall k :: 0 <= k < |r.fields| ==> CutsAtEnd(r.fields[k].fieldType, TypeSeparator))
    && Separable(FormatFields(r.fields), FieldSeparator)
  }

  lemma ParseFieldOfFormat(f: Field)
    requires CutsAtEnd(f.fieldType, TypeSeparator)
    ensures ParseField(FormatField(f)) == Some(f)
  {
    SplitOnceOfJoined(f.fieldType, TypeSeparator, f.name);
  }

  /** A line that reads as a rule is that rule's own line. */
  lemma ParseThenFormat(description: string)
    requires ParseRule(description).Some?
    ensures ParseRule(description).value.fields != []
    ensures FormatRule(ParseRule(description).value) == description
  {
    var (name, producer) := SplitOnce(description, RuleSeparator).value;
    var pieces := Split(producer, FieldSeparator);
    var fields := ParseFields(pieces).value;
    assert FormatFields(fields) == pieces by {
      forall k | 0 <= k < |fields| ensures FormatField(fields[k]) == pieces[k] {
        var (t, n) := SplitOnce(pieces[k], TypeSeparator).value;
        assert fields[k] == Field(t, n);
      }
    }
  }

  /** A well-formed rule reads back from its own line. */
  lemma FormatThenParse(r: Rule)
    requires WellFormedRule(r)
    ensures ParseRule(FormatRule(r)) == Some(r)
  {
    var pieces := FormatFields(r.fields);
    var producer := Join(pieces, FieldSeparator);
    SplitOnceOfJoined(r.name, RuleSeparator, producer);
    SplitJoin(pieces, FieldSeparator);
    forall k | 0 <= k < |pieces| ensures ParseField(pieces[k]) == Some(r.fields[k]) {
      ParseFieldOfFormat(r.fields[k]);
    }
    assert ParseFields(pieces).value == r.fields;
  }

  /** Text without spaces or commas, as the names and types of the grammar. */
  predicate Word(s: string) {
    forall k :: 0 <= k < |s| ==> s[k] != ' ' && s[k] != ','
  }

  /** A text without the first character of `pat` is cut off whole. */
  lemma CutsAtEndWithoutFirstChar(before: string, pat: string)
    requires pat != [] && forall k :: 0 <= k < |before| ==> before[k] != pat[0]
    ensures CutsAtEnd(before, pat)
  {
    forall i | 0 <= i < |before| ensures !MatchesAt(before + pat, pat, i) {
      assert (before + pat)[i] == before[i];
    }
  }

  /** A rule named with words reads back from its own line. */
  lemma WordsRoundTrip(r: Rule)
    requires r.fields != [] && Word(r.name)
    requires forall k :: 0 <= k < |r.fields| ==> Word(r.fields[k].fieldType) && Word(r.fields[k].name)
    ensures WellFormedRule(r) && ParseRule(FormatRule(r)) == Some(r)
  {
    CutsAtEndWithoutFirstChar(r.name, RuleSeparator);
    var pieces := FormatFields(r.fields);
    forall k | 0 <= k < |r.fields| ensures CutsAtEnd(r.fields[k].fieldType, TypeSeparator) {
      CutsAtEndWithoutFirstChar(r.fields[k].fieldType, TypeSeparator);
    }
    forall k | 0 <= k < |pieces|
      ensures forall j :: 0 <= j < |pieces[k]| ==> pieces[k][j] != ','
    {
      var f := r.fields[k];
      assert pieces[k] == f.fieldType + TypeSeparator + f.name;
      forall j | 0 <= j < |pieces[k]| ensures pieces[k][j] != ',' {
        if j < |f.fieldType| {
          assert pieces[k][j] == f.fieldType[j];
        } else if j > |f.fieldType| {
          assert pieces[k][j] == f.name[j - |f.fieldType| - 1];
        }
      }
    }
    forall k | 0 <= k < |pieces| - 1 ensures CutsAtEnd(pieces[k], FieldSeparator) {
      CutsAtEndWithoutFirstChar(pieces[k], FieldSeparator);
    }
    var last := pieces[|pieces| - 1];
    forall i | 0 <= i < |last| + 1 ensures !MatchesAt(last, FieldSeparator, i) {
      if i + 2 <= |last| {
        assert last[i..i + 2][0] == last[i];
      }
    }
    FormatThenParse(r);
  }

  /** One grammar line fails to parse exactly when it has no ` : ` or one of
      its fields has no space. */
  lemma ParseRuleFailure(description: string)
    ensures ParseRule(description).None? <==>
      (SplitOnce(description, RuleSeparator).None? ||
       exists piece :: piece in Split(SplitOnce(description, RuleSeparator).value.1, FieldSeparator)
                       && SplitOnce(piece, TypeSeparator).None?)
  {
    if SplitOnce(description, RuleSeparator).Some? {
      var pieces := Split(SplitOnce(description, RuleSeparator).value.1, FieldSeparator);
      if ParseRule(description).None? {
        var j :| 0 <= j < |pieces| && ParseField(pieces[j]).None?;
        assert pieces[j] in pieces;
      }
    }
  }

  /** `define_ast` panics exactly when some line has no ` : ` or some field
      has no space. */
  lemma ParseRulesFailure(types: seq<string>)
    ensures ParseRules(types).None? <==>
      exists k :: 0 <= k < |types| &&
        (SplitOnce(types[k], RuleSeparator).None? ||
         exists piece :: piece in Split(SplitOnce(types[k], RuleSeparator).value.1, FieldSeparator)
                         && SplitOnce(piece, TypeSeparator).None?)
  {
    forall k | 0 <= k < |types| {
      ParseRuleFailure(types[k]);
    }
  }

  // ---------------------------------------------------------------------------
  // Field types and names in the generated code

  /** The field type as written in the generated struct and constructor:
      `Expr` is boxed, `String` is optional, any other type is kept. */
  function WrapType(fieldType: string): (r: string)
    ensures fieldType == "Expr" ==> r == "Box<Expr>"
    ensures fieldType == "String" ==> r == "Option<String>"
    ensures r != fieldType <==> fieldType == "Expr" || fieldType == "String"
  {
    if fieldType == "Expr" then "Box<" + fieldType + ">"
    else if fieldType == "String" then "Option<" + fieldType + ">"
    else fieldType
  }

  /** Wrapping a wrapped type changes nothing. */
  lemma WrapTypeIdempotent(t: string)
    ensures WrapType(WrapType(t)) == WrapType(t)
  {
  }

  function LowerChar(c: char): char {
    if 'A' <= c <= 'Z' then (c as int - 'A' as int + 'a' as int) as char else c
  }

  /** `to_lowercase` on ASCII text: capitals become small letters, every
      other character stays. */
  function Lower(s: string): (r: string)
    ensures |r| == |s|
    ensures forall k :: 0 <= k < |s| ==> !('A' <= r[k] <= 'Z')
    ensures forall k :: 0 <= k < |s| && !('A' <= s[k] <= 'Z') ==> r[k] == s[k]
    ensures forall k :: 0 <= k < |s| && 'A' <= s[k] <= 'Z' ==> r[k] as int == s[k] as int + 32
  {
    seq(|s|, k requires 0 <= k < |s| => LowerChar(s[k]))
  }

  lemma LowerIdempotent(s: string)
    ensures Lower(Lower(s)) == Lower(s)
  {
    assert forall k :: 0 <= k < |s| ==> Lower(Lower(s))[k] == Lower(s)[k];
  }

  // ---------------------------------------------------------------------------
  // The generated text

  /** One piece of text per element, in order. */
  function Concat<T>(xs: seq<T>, f: T -> string): string {
    if xs == [] then "" else Concat(xs[..|xs| - 1], f) + f(xs[|xs| - 1])
  }

  lemma AppendAssoc(a: string, b: string, c: string)
    ensures (a + b) + c == a + (b + c)
  {
  }

  lemma AppendAssoc3(a: string, b: string, c: string, d: string)
    ensures a + (b + c + d) == a + b + c + d
  {
  }

  lemma PrefixOfAppend(a: string, b: string, c: string)
    requires a <= b
    ensures a <= b + c
  {
    assert (b + c)[..|a|] == b[..|a|];
  }

  lemma PrefixTrans(a: string, b: string, c: string)
    requires a <= b && b <= c
    ensures a <= c
  {
    assert c[..|b|][..|a|] == c[..|a|];
  }

  lemma ConcatSnoc<T>(xs: seq<T>, x: T, f: T -> string)
    ensures Concat(xs + [x], f) == Concat(xs, f) + f(x)
  {
    assert (xs + [x])[..|xs|] == xs;
  }

  /** One more element written after the text for the elements before it. */
  lemma ConcatStep<T>(start: string, xs: seq<T>, k: nat, f: T -> string)
    requires k < |xs|
    ensures (start + Concat(xs[..k], f)) + f(xs[k]) == start + Concat(xs[..k + 1], f)
  {
    assert xs[..k + 1] == xs[..k] + [xs[k]];
    ConcatSnoc(xs[..k], xs[k], f);
    AppendAssoc(start, Concat(xs[..k], f), f(xs[k]));
  }

  lemma {:induction false} ConcatAppend<T>(xs: seq<T>, ys: seq<T>, f: T -> string)
    ensures Concat(xs + ys, f) == Concat(xs, f) + Concat(ys, f)
    decreases |ys|
  {
    if ys == [] {
      assert xs + ys == xs;
    } else {
      var init, last := ys[..|ys| - 1], ys[|ys| - 1];
      assert xs + ys == (xs + init) + [last];
      ConcatSnoc(xs + init, last, f);
      ConcatAppend(xs, init, f);
    }
  }

  /** The text for element `i` comes after the texts for the elements before
      it and before the texts for the elements after it. */
  lemma ConcatAt<T>(xs: seq<T>, f: T -> string, i: nat)
    requires i < |xs|
    ensures Concat(xs, f) == Concat(xs[..i], f) + f(xs[i]) + Concat(xs[i + 1..], f)
  {
    var before, after := xs[..i], xs[i + 1..];
    assert xs == (before + [xs[i]]) + after;
    ConcatAppend(before + [xs[i]], after, f);
    ConcatSnoc(before, xs[i], f);
  }

  /** The text generated for rule `i` follows the enum, the visitor traits
      and the texts for the rules before it, and precedes the texts for the
      rules after it and `accept` for `Expr`. */
  lemma RuleTextPlacement(rules: seq<Rule>, i: nat)
    requires i < |rules|
    ensures AstText(rules)
         == EnumText(Names(rules)) + VisitorText(Names(rules)) + Concat(rules[..i], RuleText)
            + RuleText(rules[i]) + Concat(rules[i + 1..], RuleText) + ExprAcceptText(Names(rules))
  {
    ConcatAt(rules, RuleText, i);
    var head := EnumText(Names(rules)) + VisitorText(Names(rules));
    var before, here, after := Concat(rules[..i], RuleText), RuleText(rules[i]), Concat(rules[i + 1..], RuleText);
    AppendAssoc(head, before + here, after);
    AppendAssoc(head, before, here);
  }

  /** The enum variant for a rule. */
  function EnumLine(name: string): string {
    "\t" + name + "(" + name + "),\n"
  }

  /** The imports, then the enum `Expr` with one variant per rule. */
  function EnumText(names: seq<string>): string {
    "use std::any::Any;\nuse crate::token::Token;\n" + "pub enum Expr {\n" + Concat(names, EnumLine) + "}\n\n"
  }

  /** The visitor method for a rule. */
  function VisitLine(name: string): string {
    "\tfn visit_" + Lower(name) + "(&self, element: &" + name + ") -> R ;\n"
  }

  /** The `Visitor` trait, one method per rule, then the `VisitedElement` trait. */
  function VisitorText(names: seq<string>): string {
    "pub trait Visitor<R> {\n" + Concat(names, VisitLine) + VisitorTail
  }

  const VisitorTail: string :=
    "}\n\n" + "pub trait VisitedElement {\n" + "\tfn accept<S: Visitor<R>, R>(&self, visitor: S) -> R;\n" + "}\n\n"

  function FieldLine(f: Field): string {
    "\tpub " + f.name + ": " + WrapType(f.fieldType) + ",\n"
  }

  function ParamText(f: Field): string {
    f.name + ": " + WrapType(f.fieldType) + ", "
  }

  function InitLine(f: Field): string {
    "\t\t\t" + f.name + ",\n"
  }

  // A parenthesised group below is text the source writes with one call.

  /** The struct for a rule: one `pub` field per field, in order. */
  function StructText(r: Rule): string {
    ("pub struct " + r.name + " {\n") + Concat(r.fields, FieldLine) + "}\n\n"
  }

  /** The constructor `new` for a rule: one parameter and one initialiser per
      field, in order. */
  function ConstructorText(r: Rule): string {
    ("impl " + r.name + " {\n") + "\tpub fn new(" + Concat(r.fields, ParamText) + ") -> Self {\n"
    + ("\t\t" + r.name + " {\n") + Concat(r.fields, InitLine) + "\t\t}\n" + "\t}\n" + "}\n\n"
  }

  /** `accept` for a rule: it calls the visitor method named after the rule. */
  function AcceptText(r: Rule): string {
    ("impl VisitedElement for " + r.name + " {\n")
    + "\tfn accept<V: Visitor<R>, R>(&self, visitor: V) -> R {\n"
    + ("\t\tvisitor.visit_" + Lower(r.name) + "(&self)\n") + "\t}\n" + "}\n\n"
  }

  /** Everything generated for one rule: struct, constructor, `accept`. */
  function RuleText(r: Rule): string {
    StructText(r) + ConstructorText(r) + AcceptText(r)
  }

  /** The match arm of `Expr::accept` for a rule. */
  function MatchArm(name: string): string {
    "\t\t\t Expr::" + name + "(b) => {b.accept(visitor)},\n"
  }

  /** `accept` for `Expr`: one match arm per rule, in order. */
  function ExprAcceptText(names: seq<string>): string {
    "impl VisitedElement for Expr {\n" + "\tfn accept<S: Visitor<R>, R>(&self, visitor: S) -> R {\n"
    + "\t\tmatch self {\n" + Concat(names, MatchArm) + "\t\t}\n" + "\t}\n" + "}\n"
  }

  /** The whole generated file for the rules. */
  function AstText(rules: seq<Rule>): string {
    EnumText(Names(rules)) + VisitorText(Names(rules)) + Concat(rules, RuleText) + ExprAcceptText(Names(rules))
  }

  // ---------------------------------------------------------------------------
  // The generator

  /** The output file, as an append-only text. */
  class TextBuffer {
    var text: string

    constructor ()
      ensures text == ""
    {
      text := "";
    }

    /** `write_all`; its I/O failure is not modelled. */
    method WriteAll(s: string)
      modifies this
      ensures text == old(text) + s
    {
      text := text + s;
    }
  }

  lemma NamesOfParsed(types: seq<string>)
    requires ParseRules(types).Some?
    ensures RuleNames(types) == Some(Names(ParseRules(types).value))
  {
    var rules := ParseRules(types).value;
    forall k | 0 <= k < |types| ensures RuleName(types[k]) == Some(rules[k].name) {
      assert rules[k] == ParseRule(types[k]).value;
    }
    assert RuleNames(types).Some?;
    assert RuleNames(types).value == Names(rules);
  }

  /** `define_visitor`: the `Visitor` trait with one method per rule, in
      order, then the `VisitedElement` trait. `baseName` is not used. */
  method DefineVisitor(types: seq<string>, baseName: string, buffer: TextBuffer) returns (r: Result<()>)
    modifies buffer
    ensures r.Ok? <==> RuleNames(types).Some?
    ensures r.Ok? ==> buffer.text == old(buffer.text) + VisitorText(RuleNames(types).value)
    ensures r.Panic? ==> r.reason == UnwrapNone && old(buffer.text) <= buffer.text
  {
    ghost var start := buffer.text;
    buffer.WriteAll("pub trait Visitor<R> {\n");
    ghost var linesStart := buffer.text;
    for i := 0 to |types|
      invariant RuleNames(types[..i]).Some?
      invariant buffer.text == linesStart + Concat(RuleNames(types[..i]).value, VisitLine)
    {
      var split := SplitOnce(types[i], RuleSeparator);
      if split.None? {
        return Panic(UnwrapNone);
      }
      var rule := split.value.0;
      var ruleLower := Lower(rule);
      ghost var names := RuleNames(types[..i]).value;
      var line := "\tfn visit_" + ruleLower + "(&self, element: &" + rule + ") -> R ;\n";
      buffer.WriteAll(line);
      assert line == VisitLine(rule);
      AllSnoc(types, i, RuleName);
      ConcatSnoc(names, rule, VisitLine);
      AppendAssoc(linesStart, Concat(names, VisitLine), line);
    }
    assert types[..|types|] == types;
    ghost var lines := Concat(RuleNames(types).value, VisitLine);
    ghost var linesEnd := buffer.text;
    buffer.WriteAll("}\n\n");
    buffer.WriteAll("pub trait VisitedElement {\n");
    AppendAssoc(linesEnd, "}\n\n", "pub trait VisitedElement {\n");
    buffer.WriteAll("\tfn accept<S: Visitor<R>, R>(&self, visitor: S) -> R;\n");
    AppendAssoc(linesEnd, "}\n\n" + "pub trait VisitedElement {\n", "\tfn accept<S: Visitor<R>, R>(&self, visitor: S) -> R;\n");
    buffer.WriteAll("}\n\n");
    AppendAssoc(linesEnd, "}\n\n" + "pub trait VisitedElement {\n" + "\tfn accept<S: Visitor<R>, R>(&self, visitor: S) -> R;\n", "}\n\n");
    AppendAssoc3(start, "pub trait Visitor<R> {\n", lines, VisitorTail);
    r := Ok(());
  }

  /** The first field loop of `define_ast`: one struct field line per field;
      panics at the first field without a space. */
  method WriteStructFields(pieces: seq<string>, buffer: TextBuffer) returns (r: Result<()>)
    modifies buffer
    ensures r.Ok? <==> ParseFields(pieces).Some?
    ensures r.Ok? ==> buffer.text == old(buffer.text) + Concat(ParseFields(pieces).value, FieldLine)
    ensures r.Panic? ==> r.reason == UnwrapNone && old(buffer.text) <= buffer.text
  {
    ghost var start := buffer.text;
    for k := 0 to |pieces|
      invariant ParseFields(pieces[..k]).Some?
      invariant buffer.text == start + Concat(ParseFields(pieces[..k]).value, FieldLine)
    {
      var split := SplitOnce(pieces[k], TypeSeparator);
      if split.None? {
        PrefixOfAppend(start, start, Concat(ParseFields(pieces[..k]).value, FieldLine));
        return Panic(UnwrapNone);
      }
      var (structFieldType, structField) := split.value;
      var wrappedType := WrapType(structFieldType);
      var field := "\tpub " + structField + ": " + wrappedType + ",\n";
      ghost var fields := ParseFields(pieces[..k]).value;
      buffer.WriteAll(field);
      AllSnoc(pieces, k, ParseField);
      ConcatSnoc(fields, Field(structFieldType, structField), FieldLine);
      AppendAssoc(start, Concat(fields, FieldLine), field);
    }
    assert pieces[..|pieces|] == pieces;
    r := Ok(());
  }

  /** The second field loop of `define_ast`: one constructor parameter per field. */
  method WriteConstructorParams(pieces: seq<string>, buffer: TextBuffer)
    requires ParseFields(pieces).Some?
    modifies buffer
    ensures buffer.text == old(buffer.text) + Concat(ParseFields(pieces).value, ParamText)
  {
    ghost var start := buffer.text;
    ghost var all := ParseFields(pieces).value;
    for k := 0 to |pieces|
      invariant buffer.text == start + Concat(all[..k], ParamText)
    {
      assert ParseField(pieces[k]).Some?;
      var Field(structFieldType, structField) := ParseField(pieces[k]).value;
      var wrappedType := WrapType(structFieldType);
      var field := structField + ": " + wrappedType + ", ";
      buffer.WriteAll(field);
      ConcatStep(start, all, k, ParamText);
    }
    assert all[..|pieces|] == all;
  }

  /** The third field loop of `define_ast`: one initialiser per field. */
  method WriteConstructorInits(pieces: seq<string>, buffer: TextBuffer)
    requires ParseFields(pieces).Some?
    modifies buffer
    ensures buffer.text == old(buffer.text) + Concat(ParseFields(pieces).value, InitLine)
  {
    ghost var start := buffer.text;
    ghost var all := ParseFields(pieces).value;
    for k := 0 to |pieces|
      invariant buffer.text == start + Concat(all[..k], InitLine)
    {
      assert ParseField(pieces[k]).Some?;
      var Field(_, structField) := ParseField(pieces[k]).value;
      var line := "\t\t\t" + structField + ",\n";
      buffer.WriteAll(line);
      ConcatStep(start, all, k, InitLine);
    }
    assert all[..|pieces|] == all;
  }

  /** The body of the struct loop of `define_ast` for one rule: its struct,
      its constructor and its `accept`; panics at the first field without a
      space, after the struct's opening line and the fields before it. */
  method WriteRule(rule: string, producer: string, buffer: TextBuffer) returns (r: Result<()>)
    modifies buffer
    ensures r.Ok? <==> ParseFields(Split(producer, FieldSeparator)).Some?
    ensures r.Ok? ==> buffer.text == old(buffer.text)
                      + RuleText(Rule(rule, ParseFields(Split(producer, FieldSeparator)).value))
    ensures r.Panic? ==> r.reason == UnwrapNone && old(buffer.text) <= buffer.text
  {
    ghost var start := buffer.text;
    var pieces := Split(producer, FieldSeparator);
    // the struct
    var structStart := "pub struct " + rule + " {\n";
    buffer.WriteAll(structStart);
    var written := WriteStructFields(pieces, buffer);
    if written.Panic? {
      PrefixOfAppend(start, start, structStart);
      return written;
    }
    buffer.WriteAll("}\n\n");
    // the constructor
    var implStart := "impl " + rule + " {\n";
    buffer.WriteAll(implStart);
    buffer.WriteAll("\tpub fn new(");
    WriteConstructorParams(pieces, buffer);
    buffer.WriteAll(") -> Self {\n");
    var bodyStart := "\t\t" + rule + " {\n";
    buffer.WriteAll(bodyStart);
    WriteConstructorInits(pieces, buffer);
    buffer.WriteAll("\t\t}\n");
    buffer.WriteAll("\t}\n");
    buffer.WriteAll("}\n\n");
    // the implementation of VisitedElement
    var acceptImpl := "impl VisitedElement for " + rule + " {\n";
    buffer.WriteAll(acceptImpl);
    buffer.WriteAll("\tfn accept<V: Visitor<R>, R>(&self, visitor: V) -> R {\n");
    var ruleLower := Lower(rule);
    var visit := "\t\tvisitor.visit_" + ruleLower + "(&self)\n";
    buffer.WriteAll(visit);
    buffer.WriteAll("\t}\n");
    buffer.WriteAll("}\n\n");
    RuleTextWrites(start, Rule(rule, ParseFields(pieces).value));
    r := Ok(());
  }

  /** `RuleText` appended to `start` is `start` followed by the texts of the
      fourteen `write_all` calls and the three field loops, in program order. */
  lemma RuleTextWrites(start: string, r: Rule)
    ensures start + RuleText(r)
         == start + ("pub struct " + r.name + " {\n") + Concat(r.fields, FieldLine) + "}\n\n"
            + ("impl " + r.name + " {\n") + "\tpub fn new(" + Concat(r.fields, ParamText) + ") -> Self {\n"
            + ("\t\t" + r.name + " {\n") + Concat(r.fields, InitLine) + "\t\t}\n" + "\t}\n" + "}\n\n"
            + ("impl VisitedElement for " + r.name + " {\n")
            + "\tfn accept<V: Visitor<R>, R>(&self, visitor: V) -> R {\n"
            + ("\t\tvisitor.visit_" + Lower(r.name) + "(&self)\n") + "\t}\n" + "}\n\n"
  {
    AppendAssoc(start, StructText(r) + ConstructorText(r), AcceptText(r));
    AppendAssoc(start, StructText(r), ConstructorText(r));
    StructTextWrites(start, r);
    ConstructorTextWrites(start + StructText(r), r);
    AcceptTextWrites(start + StructText(r) + ConstructorText(r), r);
  }

  lemma StructTextWrites(start: string, r: Rule)
    ensures start + StructText(r)
         == start + ("pub struct " + r.name + " {\n") + Concat(r.fields, FieldLine) + "}\n\n"
  {
    var head := "pub struct " + r.name + " {\n";
    AppendAssoc(start, head + Concat(r.fields, FieldLine), "}\n\n");
    AppendAssoc(start, head, Concat(r.fields, FieldLine));
  }

  lemma ConstructorTextWrites(start: string, r: Rule)
    ensures start + ConstructorText(r)
         == start + ("impl " + r.name + " {\n") + "\tpub fn new(" + Concat(r.fields, ParamText) + ") -> Self {\n"
            + ("\t\t" + r.name + " {\n") + Concat(r.fields, InitLine) + "\t\t}\n" + "\t}\n" + "}\n\n"
  {
    var t1 := "impl " + r.name + " {\n";
    var t2 := t1 + "\tpub fn new(";
    var t3 := t2 + Concat(r.fields, ParamText);
    var t4 := t3 + ") -> Self {\n";
    var t5 := t4 + ("\t\t" + r.name + " {\n");
    var t6 := t5 + Concat(r.fields, InitLine);
    var t7 := t6 + "\t\t}\n";
    var t8 := t7 + "\t}\n";
    AppendAssoc(start, t8, "}\n\n");
    AppendAssoc(start, t7, "\t}\n");
    AppendAssoc(start, t6, "\t\t}\n");
    AppendAssoc(start, t5, Concat(r.fields, InitLine));
    AppendAssoc(start, t4, "\t\t" + r.name + " {\n");
    AppendAssoc(start, t3, ") -> Self {\n");
    AppendAssoc(start, t2, Concat(r.fields, ParamText));
    AppendAssoc(start, t1, "\tpub fn new(");
  }

  lemma AcceptTextWrites(start: string, r: Rule)
    ensures start + AcceptText(r)
         == start + ("impl VisitedElement for " + r.name + " {\n")
            + "\tfn accept<V: Visitor<R>, R>(&self, visitor: V) -> R {\n"
            + ("\t\tvisitor.visit_" + Lower(r.name) + "(&self)\n") + "\t}\n" + "}\n\n"
  {
    var t1 := "impl VisitedElement for " + r.name + " {\n";
    var t2 := t1 + "\tfn accept<V: Visitor<R>, R>(&self, visitor: V) -> R {\n";
    var t3 := t2 + ("\t\tvisitor.visit_" + Lower(r.name) + "(&self)\n");
    var t4 := t3 + "\t}\n";
    AppendAssoc(start, t4, "}\n\n");
    AppendAssoc(start, t3, "\t}\n");
    AppendAssoc(start, t2, "\t\tvisitor.visit_" + Lower(r.name) + "(&self)\n");
    AppendAssoc(start, t1, "\tfn accept<V: Visitor<R>, R>(&self, visitor: V) -> R {\n");
  }

  /** A grammar line whose name and producer split apart parses to the rule
      named by the first, with the fields of the second. */
  lemma ParseRuleOfSplit(description: string, name: string, producer: string)
    requires SplitOnce(description, RuleSeparator) == Some((name, producer))
    ensures ParseFields(Split(producer, FieldSeparator)).Some?
            ==> ParseRule(description) == Some(Rule(name, ParseFields(Split(producer, FieldSeparator)).value))
  {
  }

  /** The first section of `define_ast`: the imports and the enum `Expr`;
      panics at the first grammar line without ` : `. */
  method DefineEnum(types: seq<string>, buffer: TextBuffer) returns (r: Result<()>)
    modifies buffer
    ensures r.Ok? <==> RuleNames(types).Some?
    ensures r.Ok? ==> buffer.text == old(buffer.text) + EnumText(RuleNames(types).value)
    ensures r.Panic? ==> r.reason == UnwrapNone && old(buffer.text) <= buffer.text
  {
    ghost var start := buffer.text;
    buffer.WriteAll("use std::any::Any;\nuse crate::token::Token;\n");
    buffer.WriteAll("pub enum Expr {\n");
    ghost var acc := "use std::any::Any;\nuse crate::token::Token;\n";
    AppendAssoc(start, acc, "pub enum Expr {\n");
    acc := acc + "pub enum Expr {\n";
    ghost var linesStart := buffer.text;
    for i := 0 to |types|
      invariant RuleNames(types[..i]).Some?
      invariant buffer.text == linesStart + Concat(RuleNames(types[..i]).value, EnumLine)
    {
      var split := SplitOnce(types[i], RuleSeparator);
      if split.None? {
        PrefixOfAppend(start, start, acc);
        PrefixOfAppend(start, linesStart, Concat(RuleNames(types[..i]).value, EnumLine));
        return Panic(UnwrapNone);
      }
      var rule := split.value.0;
      ghost var names := RuleNames(types[..i]).value;
      var line := "\t" + rule + "(" + rule + "),\n";
      buffer.WriteAll(line);
      assert line == EnumLine(rule);
      AllSnoc(types, i, RuleName);
      ConcatSnoc(names, rule, EnumLine);
      AppendAssoc(linesStart, Concat(names, EnumLine), line);
    }
    assert types[..|types|] == types;
    ghost var lines := Concat(RuleNames(types).value, EnumLine);
    AppendAssoc(start, acc, lines);
    acc := acc + lines;
    buffer.WriteAll("}\n\n");
    AppendAssoc(start, acc, "}\n\n");
    r := Ok(());
  }

  /** The second section of `define_ast`: one struct, constructor and
      `accept` per rule; panics at the first malformed grammar line. */
  method DefineStructs(types: seq<string>, buffer: TextBuffer) returns (r: Result<()>)
    modifies buffer
    ensures r.Ok? <==> ParseRules(types).Some?
    ensures r.Ok? ==> buffer.text == old(buffer.text) + Concat(ParseRules(types).value, RuleText)
    ensures r.Panic? ==> r.reason == UnwrapNone && old(buffer.text) <= buffer.text
  {
    ghost var start := buffer.text;
    for i := 0 to |types|
      invariant ParseRules(types[..i]).Some?
      invariant buffer.text == start + Concat(ParseRules(types[..i]).value, RuleText)
    {
      ghost var done := ParseRules(types[..i]).value;
      var split := SplitOnce(types[i], RuleSeparator);
      if split.None? {
        PrefixOfAppend(start, start, Concat(done, RuleText));
        return Panic(UnwrapNone);
      }
      var (rule, producer) := split.value;
      var written := WriteRule(rule, producer, buffer);
      if written.Panic? {
        PrefixOfAppend(start, start, Concat(done, RuleText));
        return written;
      }
      ghost var parsed := Rule(rule, ParseFields(Split(producer, FieldSeparator)).value);
      ParseRuleOfSplit(types[i], rule, producer);
      AllSnoc(types, i, ParseRule);
      ConcatSnoc(done, parsed, RuleText);
      AppendAssoc(start, Concat(done, RuleText), RuleText(parsed));
    }
    assert types[..|types|] == types;
    r := Ok(());
  }

  /** The last section of `define_ast`: `accept` for `Expr`, one match arm
      per rule; panics at the first grammar line without ` : `. */
  method DefineExprAccept(types: seq<string>, buffer: TextBuffer) returns (r: Result<()>)
    modifies buffer
    ensures r.Ok? <==> RuleNames(types).Some?
    ensures r.Ok? ==> buffer.text == old(buffer.text) + ExprAcceptText(RuleNames(types).value)
    ensures r.Panic? ==> r.reason == UnwrapNone && old(buffer.text) <= buffer.text
  {
    ghost var start := buffer.text;
    buffer.WriteAll("impl VisitedElement for Expr {\n");
    buffer.WriteAll("\tfn accept<S: Visitor<R>, R>(&self, visitor: S) -> R {\n");
    ghost var acc := "impl VisitedElement for Expr {\n";
    AppendAssoc(start, acc, "\tfn accept<S: Visitor<R>, R>(&self, visitor: S) -> R {\n");
    acc := acc + "\tfn accept<S: Visitor<R>, R>(&self, visitor: S) -> R {\n";
    buffer.WriteAll("\t\tmatch self {\n");
    AppendAssoc(start, acc, "\t\tmatch self {\n");
    acc := acc + "\t\tmatch self {\n";
    ghost var armsStart := buffer.text;
    for i := 0 to |types|
      invariant RuleNames(types[..i]).Some?
      invariant buffer.text == armsStart + Concat(RuleNames(types[..i]).value, MatchArm)
    {
      var split := SplitOnce(types[i], RuleSeparator);
      if split.None? {
        PrefixOfAppend(start, start, acc);
        PrefixOfAppend(start, armsStart, Concat(RuleNames(types[..i]).value, MatchArm));
        return Panic(UnwrapNone);
      }
      var rule := split.value.0;
      ghost var names := RuleNames(types[..i]).value;
      var arm := "\t\t\t Expr::" + rule + "(b) => {b.accept(visitor)},\n";
      buffer.WriteAll(arm);
      assert arm == MatchArm(rule);
      AllSnoc(types, i, RuleName);
      ConcatSnoc(names, rule, MatchArm);
      AppendAssoc(armsStart, Concat(names, MatchArm), arm);
    }
    assert types[..|types|] == types;
    ghost var arms := Concat(RuleNames(types).value, MatchArm);
    AppendAssoc(start, acc, arms);
    acc := acc + arms;
    buffer.WriteAll("\t\t}\n");
    AppendAssoc(start, acc, "\t\t}\n");
    acc := acc + "\t\t}\n";
    buffer.WriteAll("\t}\n");
    AppendAssoc(start, acc, "\t}\n");
    acc := acc + "\t}\n";
    buffer.WriteAll("}\n");
    AppendAssoc(start, acc, "}\n");
    r := Ok(());
  }

  /** A line without ` : ` makes the whole grammar malformed. */
  lemma NoNameThenNoRules(types: seq<string>)
    requires RuleNames(types).None?
    ensures ParseRules(types).None?
  {
    var k :| 0 <= k < |types| && RuleName(types[k]).None?;
    assert ParseRule(types[k]).None?;
  }

  /** The generated file is its four sections written one after the other. */
  lemma AstTextSections(start: string, rules: seq<Rule>)
    ensures start + AstText(rules)
         == start + EnumText(Names(rules)) + VisitorText(Names(rules))
            + Concat(rules, RuleText) + ExprAcceptText(Names(rules))
  {
    var e, v, s, a := EnumText(Names(rules)), VisitorText(Names(rules)),
                      Concat(rules, RuleText), ExprAcceptText(Names(rules));
    AppendAssoc(start, e, v);
    AppendAssoc(start, e + v, s);
    AppendAssoc(start, e + v + s, a);
  }

  /** `define_ast`: the enum `Expr`, the visitor traits, one struct with a
      constructor and an `accept` per rule, and `accept` for `Expr`. Panics
      at the first malformed grammar line, having written what came before. */
  method DefineAst(types: seq<string>, buffer: TextBuffer) returns (r: Result<()>)
    modifies buffer
    ensures r.Ok? <==> ParseRules(types).Some?
    ensures r.Ok? ==> buffer.text == old(buffer.text) + AstText(ParseRules(types).value)
    ensures r.Panic? ==> r.reason == UnwrapNone && old(buffer.text) <= buffer.text
  {
    ghost var start := buffer.text;
    r := DefineEnum(types, buffer);
    if r.Panic? {
      NoNameThenNoRules(types);
      return;
    }
    ghost var enumEnd := buffer.text;
    r := DefineVisitor(types, "Expr", buffer);
    ghost var visitorEnd := buffer.text;
    r := DefineStructs(types, buffer);
    if r.Panic? {
      PrefixOfAppend(start, start, EnumText(RuleNames(types).value));
      PrefixOfAppend(start, enumEnd, VisitorText(RuleNames(types).value));
      PrefixTrans(start, visitorEnd, buffer.text);
      return;
    }
    r := DefineExprAccept(types, buffer);
    NamesOfParsed(types);
    AstTextSections(start, ParseRules(types).value);
  }
}
