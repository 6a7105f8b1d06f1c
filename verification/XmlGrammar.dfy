/**
 The prolog takes nothing but a prolog: whatever tokens bring the automaton of
 libjabber/xmlrole.c to the root element are those of productions 22, 28 and
 what these refer to, in XML 1.0.
 */
module XmlGrammar {
  import opened XmlScan
  import opened XmlContent
  import opened XmlValue
  import opened XmlProlog
  import opened XmlChunks
  import opened XmlDeclarations
  import opened XmlDoctype
  import opened XmlReports
  import opened XmlDocuments
  import opened XmlTok
  import XmlDeclared
  import XmlRole

  // ---- The grammar ----

  function Kinds(l: Lexemes): (k: seq<Token>) ensures |k| == |l| { seq(|l|, i requires 0 <= i < |l| => l[i].tok) }

  /** Production 75. */
  predicate IsId(l: Lexemes)
  {
    (Kinds(l) == [Name, Literal] && l[0].text == "SYSTEM") || (Kinds(l) == [Name, Literal, Literal] && l[0].text == "PUBLIC")
  }

  /** Productions 73 and 76. */
  predicate IsEntityDef(l: Lexemes)
  {
    Kinds(l) == [Literal] || IsId(l) || (|l| > 2 && IsId(l[..|l| - 2]) && l[|l| - 2] == Word("NDATA") && l[|l| - 1].tok == Name)
  }

  /** Productions 70 to 72 and 74. */
  predicate IsEntity(l: Lexemes)
  {
    && |l| > 2 && l[0] == Open("<!ENTITY") && l[|l| - 1].tok == DeclClose
    && ((l[1].tok == Name && IsEntityDef(l[2..|l| - 1])) || (|l| > 3 && l[1].tok == Percent && l[2].tok == Name && (Kinds(l[3..|l| - 1]) == [Literal] || IsId(l[3..|l| - 1]))))
  }

  /** Productions 82 and 83. */
  predicate IsNotation(l: Lexemes)
  {
    && |l| > 2 && l[0] == Open("<!NOTATION") && l[1].tok == Name && l[|l| - 1].tok == DeclClose
    && (IsId(l[2..|l| - 1]) || (Kinds(l[2..|l| - 1]) == [Name, Literal] && l[2].text == "PUBLIC"))
  }

  /** "(", tokens with "|" between them, and ")". */
  predicate IsChoice(l: Lexemes, tokens: set<Token>)
  {
    && |l| >= 3 && |l| % 2 == 1 && l[0].tok == OpenParen && l[|l| - 1].tok == CloseParen
    && forall i :: 0 < i < |l| - 1 ==> if i % 2 == 1 then l[i].tok in tokens else l[i].tok == Or
  }

  /** Productions 54 to 59. */
  predicate IsAttType(l: Lexemes)
  {
    || (|l| == 1 && l[0].tok == Name && (l[0].text == "CDATA" || l[0].text in KEYWORDS))
    || IsChoice(l, {Name, Nmtoken})
    || (|l| > 0 && l[0] == Word("NOTATION") && IsChoice(l[1..], {Name}))
  }

  /** Production 60. */
  predicate IsDefault(l: Lexemes)
  {
    || (Kinds(l) == [PoundName] && l[0].text in {"#IMPLIED", "#REQUIRED"}) || Kinds(l) == [Literal]
    || (Kinds(l) == [PoundName, Literal] && l[0].text == "#FIXED")
  }

  /** Production 53. */
  predicate IsAttDef(l: Lexemes) { |l| > 1 && l[0].tok == Name && exists k :: 1 <= k <= |l| && IsAttType(l[1..k]) && IsDefault(l[k..]) }

  /** Attribute definitions and ">". */
  predicate IsAttDefs(l: Lexemes)
    decreases |l|
  {
    Kinds(l) == [DeclClose] || exists k :: 0 < k <= |l| && IsAttDef(l[..k]) && IsAttDefs(l[k..])
  }

  /** Production 52. */
  predicate IsAttlist(l: Lexemes) { |l| > 2 && l[0] == Open("<!ATTLIST") && l[1].tok == Name && IsAttDefs(l[2..]) }

  /** Production 45. */
  ghost predicate IsElement(l: Lexemes)
  {
    && |l| > 2 && l[0] == Open("<!ELEMENT") && l[1].tok == Name && l[|l| - 1].tok == DeclClose
    && exists spec: XmlRole.ContentSpec :: spec.Legal() && XmlRole.IsContentSpec(spec, l[2..|l| - 1])
  }

  /** Productions 28a and 29. */
  ghost predicate IsDeclaration(l: Lexemes)
  {
    Kinds(l) == [Pi] || Kinds(l) == [Comment] || Kinds(l) == [ParamEntityRef] || IsEntity(l) || IsNotation(l) || IsAttlist(l) || IsElement(l)
  }

  ghost predicate IsSubset(l: Lexemes)
    decreases |l|
  {
    l == [] || exists k :: 0 < k <= |l| && IsDeclaration(l[..k]) && IsSubset(l[k..])
  }

  /** The end of a document type declaration, with an internal subset or without. */
  ghost predicate IsEnd(l: Lexemes)
  {
    || Kinds(l) == [DeclClose]
    || (|l| > 2 && l[0].tok == OpenBracket && l[|l| - 2].tok == CloseBracket && l[|l| - 1].tok == DeclClose && IsSubset(l[1..|l| - 2]))
  }

  /** Production 28. */
  ghost predicate IsDoctype(l: Lexemes)
  {
    && |l| > 2 && l[0] == Open("<!DOCTYPE") && l[1].tok == Name
    && (IsEnd(l[2..]) || exists k :: 2 < k <= |l| && IsId(l[2..k]) && IsEnd(l[k..]))
  }

  /** Production 22. */
  ghost predicate IsProlog(l: Lexemes)
  {
    exists i, j :: 0 <= i <= j <= |l| && Front(l[..i]) && (i == j || IsDoctype(l[i..j])) && Asides(l[j..])
  }

  // ---- One token at a time ----

  predicate Solid(l: Lexemes) { forall i :: 0 <= i < |l| ==> l[i].tok != PrologS }

  predicate Outside(h: PrologHandler) { h == Prolog0 || h == Prolog1 || h == Prolog2 }

  /** The tokens lead to where the root may start. */
  predicate Arrives(r: Reader, p: Prolog, l: Lexemes) { Solid(l) && After(r, p, l).Some? && Outside(After(r, p, l).value.at) }

  predicate Passed(r: Reader, p: Prolog, l: Lexemes, k: nat, q: Prolog) { k <= |l| && After(r, q, l[k..]) == After(r, p, l) && Arrives(r, q, l[k..]) }

  lemma {:induction false} Onward(r: Reader, p: Prolog, l: Lexemes, k: nat, q: Prolog, j: nat, s: Prolog)
    requires Passed(r, p, l, k, q) && Passed(r, q, l[k..], j, s)
    ensures Passed(r, p, l, k + j, s)
  {
    hide After;
    assert l[k..][j..] == l[k + j..];
  }

  lemma {:induction false} Taken(r: Reader, p: Prolog, l: Lexemes) returns (q: Prolog)
    requires Arrives(r, p, l) && !p.at.InElement? && (l != [] || !Outside(p.at))
    ensures l != [] && l[0].tok != InstanceStart && Passed(r, p, l, 1, q) && TokenRole(p.at, l[0].tok, l[0].text).Some? && q.at == TokenRole(p.at, l[0].tok, l[0].text).value.0
  {
    hide TokenRole; hide Act;
    q := Turn(r, p, l[0].tok, l[0].text).prolog;
    TokenTurn(r, p, l[0].tok, l[0].text);
    ActStays(r, p.(at := TokenRole(p.at, l[0].tok, l[0].text).value.0), TokenRole(p.at, l[0].tok, l[0].text).value.1, l[0].text);
  }

  /** The token at `k`, by the state there. */
  lemma {:induction false} TakenAt(r: Reader, p: Prolog, l: Lexemes, k: nat, q: Prolog) returns (s: Prolog)
    requires Passed(r, p, l, k, q) && !q.at.InElement? && (k < |l| || !Outside(q.at))
    ensures k < |l| && l[k].tok != PrologS && l[k].tok != InstanceStart && Passed(r, p, l, k + 1, s)
    ensures TokenRole(q.at, l[k].tok, l[k].text).Some? && s.at == TokenRole(q.at, l[k].tok, l[k].text).value.0
  {
    hide TokenRole; hide After;
    s := Taken(r, q, l[k..]);
    assert l[k..][0] == l[k];
    Onward(r, p, l, k, q, 1, s);
  }

  lemma {:induction false} SliceOf(l: Lexemes, a: nat, b: nat, c: nat, d: nat)
    requires a <= b <= |l| && c <= d <= b - a
    ensures l[a..b][c..d] == l[a + c..a + d]
  {
    var m, n := l[a..b][c..d], l[a + c..a + d];
    assert |m| == |n|;
    forall i | 0 <= i < |m| ensures m[i] == n[i] { assert m[i] == l[a..b][c + i] == l[a + c + i]; }
  }

  lemma {:induction false} Ended(r: Reader, p: Prolog, l: Lexemes, k: nat, q: Prolog) returns (s: Prolog)
    requires Passed(r, p, l, k, q) && q.at == DeclEnd
    ensures k < |l| && l[k].tok == DeclClose && Passed(r, p, l, k + 1, s) && s.at == Subset
  {
    hide InEntity; hide InAttlist; hide Passed;
    s := TakenAt(r, p, l, k, q);
  }

  // ---- Entities ----

  /** TakenAt inside a declaration of an entity. */
  lemma {:induction false} TakenEntity(r: Reader, p: Prolog, l: Lexemes, k: nat, q: Prolog) returns (s: Prolog)
    requires Passed(r, p, l, k, q) && (q.at.Entity0? || EntityPart(q.at))
    ensures k < |l| && Passed(r, p, l, k + 1, s) && InEntity(q.at, l[k].tok, l[k].text).Some? && s.at == InEntity(q.at, l[k].tok, l[k].text).value.0
  {
    hide TokenRole; hide InEntity; hide Passed;
    s := TakenAt(r, p, l, k, q);
    EntityTokenRole(q.at, l[k].tok, l[k].text);
  }

  lemma {:induction false} EntityEnd(r: Reader, p: Prolog, l: Lexemes, k: nat, q: Prolog) returns (j: nat, s: Prolog)
    requires Passed(r, p, l, k, q) && q.at == Entity5
    ensures k < j <= |l| && Passed(r, p, l, j, s) && s.at == Subset && l[j - 1].tok == DeclClose
    ensures j == k + 1 || (j == k + 3 && l[k] == Word("NDATA") && l[k + 1].tok == Name)
  {
    hide Passed;
    var a := TakenEntity(r, p, l, k, q);
    j, s := k + 1, a;
    if a.at != Subset {
      var b := TakenEntity(r, p, l, k + 1, a);
      s := Ended(r, p, l, k + 2, b);
      j := k + 3;
    }
  }

  lemma {:induction false} DefIs(l: Lexemes, k: nat, m: nat, j: nat)
    requires k < m < j <= |l| && IsId(l[k..m]) && (j == m + 1 || (j == m + 3 && l[m] == Word("NDATA") && l[m + 1].tok == Name))
    ensures IsEntityDef(l[k..j - 1])
  {
    hide IsId;
    var d := l[k..j - 1];
    if j == m + 1 { assert d == l[k..m]; } else { assert d[..|d| - 2] == l[k..m] && d[|d| - 2] == l[m] && d[|d| - 1] == l[m + 1]; }
  }

  lemma {:induction false} SystemIs(l: Lexemes, k: nat)
    requires k + 2 <= |l| && l[k] == Word("SYSTEM") && l[k + 1].tok == Literal
    ensures IsId(l[k..k + 2])
  {
    assert Kinds(l[k..k + 2]) == [Name, Literal];
  }

  lemma {:induction false} PublicIs(l: Lexemes, k: nat)
    requires k + 3 <= |l| && l[k] == Word("PUBLIC") && l[k + 1].tok == Literal && l[k + 2].tok == Literal
    ensures IsId(l[k..k + 3])
  {
    assert Kinds(l[k..k + 3]) == [Name, Literal, Literal];
  }

  lemma {:induction false} LiteralIs(l: Lexemes, k: nat)
    requires k < |l| && l[k].tok == Literal
    ensures Kinds(l[k..k + 1]) == [Literal]
  {
  }

  lemma {:induction false} GeneralFrom(r: Reader, p: Prolog, l: Lexemes, k: nat, q: Prolog) returns (j: nat, s: Prolog)
    requires Passed(r, p, l, k, q) && q.at == Entity2
    ensures k < j - 1 < |l| && Passed(r, p, l, j, s) && s.at == Subset && l[j - 1].tok == DeclClose && IsEntityDef(l[k..j - 1])
  {
    hide Passed; hide IsId;
    var a := TakenEntity(r, p, l, k, q);
    if a.at == DeclEnd {
      s := Ended(r, p, l, k + 1, a);
      j := k + 2;
      LiteralIs(l, k);
    } else {
      var m, b := k + 1, a;
      if a.at == Entity3 { b := TakenEntity(r, p, l, k + 1, a); m := k + 2; }
      var c := TakenEntity(r, p, l, m, b);
      j, s := EntityEnd(r, p, l, m + 1, c);
      if a.at == Entity3 { PublicIs(l, k); } else { SystemIs(l, k); }
      DefIs(l, k, m + 1, j);
    }
  }

  lemma {:induction false} ParameterFrom(r: Reader, p: Prolog, l: Lexemes, k: nat, q: Prolog) returns (j: nat, s: Prolog)
    requires Passed(r, p, l, k, q) && q.at == Entity7
    ensures k < j - 1 < |l| && Passed(r, p, l, j, s) && s.at == Subset && l[j - 1].tok == DeclClose && (Kinds(l[k..j - 1]) == [Literal] || IsId(l[k..j - 1]))
  {
    hide Passed; hide IsId;
    var a := TakenEntity(r, p, l, k, q);
    if a.at == DeclEnd {
      s := Ended(r, p, l, k + 1, a);
      j := k + 2;
      LiteralIs(l, k);
    } else {
      j, s := ParameterIdFrom(r, p, l, k, a);
    }
  }

  lemma {:induction false} ParameterIdFrom(r: Reader, p: Prolog, l: Lexemes, k: nat, q: Prolog) returns (j: nat, s: Prolog)
    requires k < |l| && Passed(r, p, l, k + 1, q) && ((q.at == Entity9 && l[k] == Word("SYSTEM")) || (q.at == Entity8 && l[k] == Word("PUBLIC")))
    ensures k < j - 1 < |l| && Passed(r, p, l, j, s) && s.at == Subset && l[j - 1].tok == DeclClose && IsId(l[k..j - 1])
  {
    hide Passed; hide IsId;
    var m, b := k + 1, q;
    if q.at == Entity8 { b := TakenEntity(r, p, l, k + 1, q); m := k + 2; }
    var c := TakenEntity(r, p, l, m, b);
    s := Ended(r, p, l, m + 1, c);
    j := m + 2;
    if q.at == Entity8 { PublicIs(l, k); } else { SystemIs(l, k); }
  }

  lemma {:induction false} EntityFrom(r: Reader, p: Prolog, l: Lexemes, k: nat, q: Prolog) returns (j: nat, s: Prolog)
    requires Passed(r, p, l, k, q) && q.at == Entity0 && k > 0 && l[k - 1] == Open("<!ENTITY")
    ensures k < j <= |l| && Passed(r, p, l, j, s) && s.at == Subset && IsEntity(l[k - 1..j])
  {
    hide Passed; hide IsId; hide IsEntityDef; hide Kinds; hide IsEntity;
    var a := TakenEntity(r, p, l, k, q);
    if a.at == Entity2 {
      j, s := GeneralFrom(r, p, l, k + 1, a);
      GeneralIs(l, k, j);
    } else {
      var b := TakenEntity(r, p, l, k + 1, a);
      j, s := ParameterFrom(r, p, l, k + 2, b);
      ParameterIs(l, k, j);
    }
  }

  lemma {:induction false} GeneralIs(l: Lexemes, k: nat, j: nat)
    requires 0 < k < j - 2 && j <= |l| && l[k - 1] == Open("<!ENTITY") && l[k].tok == Name && l[j - 1].tok == DeclClose && IsEntityDef(l[k + 1..j - 1])
    ensures IsEntity(l[k - 1..j])
  {
    hide IsEntityDef;
    SliceOf(l, k - 1, j, 2, j - k);
  }

  lemma {:induction false} ParameterIs(l: Lexemes, k: nat, j: nat)
    requires 0 < k < j - 3 && j <= |l| && l[k - 1] == Open("<!ENTITY") && l[k].tok == Percent && l[k + 1].tok == Name && l[j - 1].tok == DeclClose
    requires Kinds(l[k + 2..j - 1]) == [Literal] || IsId(l[k + 2..j - 1])
    ensures IsEntity(l[k - 1..j])
  {
    hide IsId; hide Kinds; hide IsEntityDef;
    SliceOf(l, k - 1, j, 3, j - k);
  }

  // ---- Notations ----

  /** Behind the name and the keyword. */
  lemma {:induction false} NotationEnd(r: Reader, p: Prolog, l: Lexemes, k: nat, q: Prolog) returns (j: nat, s: Prolog)
    requires Passed(r, p, l, k, q) && (q.at == Notation2 || q.at == Notation3)
    ensures k < j - 1 < |l| && Passed(r, p, l, j, s) && s.at == Subset && l[j - 1].tok == DeclClose && l[k].tok == Literal
    ensures j == k + 2 || (q.at == Notation2 && j == k + 3 && l[k + 1].tok == Literal)
  {
    hide Passed; hide InEntity; hide InAttlist;
    var c := TakenAt(r, p, l, k, q);
    if q.at == Notation3 {
      s := Ended(r, p, l, k + 1, c);
      j := k + 2;
    } else {
      j, s := PublicEnd(r, p, l, k + 1, c);
    }
  }

  lemma {:induction false} PublicEnd(r: Reader, p: Prolog, l: Lexemes, k: nat, q: Prolog) returns (j: nat, s: Prolog)
    requires Passed(r, p, l, k, q) && q.at == Notation4
    ensures k < j <= |l| && Passed(r, p, l, j, s) && s.at == Subset && l[j - 1].tok == DeclClose && (j == k + 1 || (j == k + 2 && l[k].tok == Literal))
  {
    hide Passed; hide InEntity; hide InAttlist;
    var d := TakenAt(r, p, l, k, q);
    j, s := k + 1, d;
    if d.at == DeclEnd {
      s := Ended(r, p, l, k + 1, d);
      j := k + 2;
    }
  }

  lemma {:induction false} NotationStart(r: Reader, p: Prolog, l: Lexemes, k: nat, q: Prolog) returns (s: Prolog)
    requires Passed(r, p, l, k, q) && q.at == Notation0
    ensures k + 1 < |l| && Passed(r, p, l, k + 2, s) && l[k].tok == Name
    ensures (s.at == Notation3 && l[k + 1] == Word("SYSTEM")) || (s.at == Notation2 && l[k + 1] == Word("PUBLIC"))
  {
    hide Passed; hide InEntity; hide InAttlist;
    var a := TakenAt(r, p, l, k, q);
    s := TakenAt(r, p, l, k + 1, a);
  }

  lemma {:induction false} NotationFrom(r: Reader, p: Prolog, l: Lexemes, k: nat, q: Prolog) returns (j: nat, s: Prolog)
    requires Passed(r, p, l, k, q) && q.at == Notation0 && k > 0 && l[k - 1] == Open("<!NOTATION")
    ensures k < j <= |l| && Passed(r, p, l, j, s) && s.at == Subset && IsNotation(l[k - 1..j])
  {
    hide Passed; hide IsId;
    var b := NotationStart(r, p, l, k, q);
    j, s := NotationEnd(r, p, l, k + 2, b);
    if b.at == Notation3 {
      SystemIs(l, k + 1);
    } else if j == k + 5 {
      PublicIs(l, k + 1);
    } else {
      assert Kinds(l[k + 1..k + 3]) == [Name, Literal];
    }
    SliceOf(l, k - 1, j, 2, j - k);
  }

  // ---- Attributes ----

  lemma {:induction false} TakenAttlist(r: Reader, p: Prolog, l: Lexemes, k: nat, q: Prolog) returns (s: Prolog)
    requires Passed(r, p, l, k, q) && AttlistPart(q.at)
    ensures k < |l| && Passed(r, p, l, k + 1, s) && InAttlist(q.at, l[k].tok, l[k].text).Some? && s.at == InAttlist(q.at, l[k].tok, l[k].text).value.0
  {
    hide TokenRole; hide InAttlist; hide Passed;
    s := TakenAt(r, p, l, k, q);
    AttlistTokenRole(q.at, l[k].tok, l[k].text);
  }

  /** Tokens with "|" between them, up to ")". */
  predicate Separated(l: Lexemes, k: nat, j: nat, tokens: set<Token>)
  {
    && k + 1 < j <= |l| && (j - k) % 2 == 0 && l[j - 1].tok == CloseParen
    && forall i :: k <= i < j - 1 ==> if (i - k) % 2 == 0 then l[i].tok in tokens else l[i].tok == Or
  }

  lemma {:induction false} ChoiceFrom(r: Reader, p: Prolog, l: Lexemes, k: nat, q: Prolog) returns (j: nat, s: Prolog)
    requires Passed(r, p, l, k, q) && (q.at == Attlist3 || q.at == Attlist6) && k <= |l|
    ensures Passed(r, p, l, j, s) && s.at == Attlist8 && Separated(l, k, j, if q.at == Attlist3 then {Name, Nmtoken} else {Name})
    decreases |l| - k
  {
    hide Passed; hide OTHER_TYPES; hide Separated;
    var a := TakenAttlist(r, p, l, k, q);
    var b := TakenAttlist(r, p, l, k + 1, a);
    j, s := k + 2, b;
    if b.at != Attlist8 { j, s := ChoiceFrom(r, p, l, k + 2, b); }
    SeparatedIs(l, k, j, if q.at == Attlist3 then {Name, Nmtoken} else {Name});
  }

  lemma {:induction false} SeparatedIs(l: Lexemes, k: nat, j: nat, tokens: set<Token>)
    requires k + 1 < |l| && l[k].tok in tokens
    requires (j == k + 2 && l[k + 1].tok == CloseParen) || (l[k + 1].tok == Or && Separated(l, k + 2, j, tokens))
    ensures Separated(l, k, j, tokens)
  {
  }

  lemma {:induction false} ChoiceIs(l: Lexemes, k: nat, j: nat, tokens: set<Token>)
    requires 0 < k && Separated(l, k, j, tokens) && l[k - 1].tok == OpenParen
    ensures IsChoice(l[k - 1..j], tokens)
  {
    var c := l[k - 1..j];
    forall i | 0 < i < |c| - 1 ensures if i % 2 == 1 then c[i].tok in tokens else c[i].tok == Or { assert c[i] == l[k - 1 + i]; }
  }

  lemma {:induction false} TypeFrom(r: Reader, p: Prolog, l: Lexemes, k: nat, q: Prolog) returns (j: nat, s: Prolog)
    requires Passed(r, p, l, k, q) && q.at == Attlist2
    ensures k < j <= |l| && Passed(r, p, l, j, s) && s.at == Attlist8 && IsAttType(l[k..j])
  {
    hide Passed; hide OTHER_TYPES; hide Separated; hide IsChoice;
    var a := TakenAttlist(r, p, l, k, q);
    if a.at == Attlist8 {
      j, s := k + 1, a;
      OnlyOtherTypes(l[k].text);
    } else if a.at == Attlist3 {
      j, s := ChoiceFrom(r, p, l, k + 1, a);
      ChoiceEnds(l, k + 1, j, {Name, Nmtoken});
      ChoiceIs(l, k + 1, j, {Name, Nmtoken});
    } else {
      j, s := NotationTypeFrom(r, p, l, k, a);
    }
  }

  lemma {:induction false} NotationTypeFrom(r: Reader, p: Prolog, l: Lexemes, k: nat, q: Prolog) returns (j: nat, s: Prolog)
    requires k < |l| && l[k] == Word("NOTATION") && Passed(r, p, l, k + 1, q) && q.at == Attlist5
    ensures k < j <= |l| && Passed(r, p, l, j, s) && s.at == Attlist8 && IsAttType(l[k..j])
  {
    hide Passed; hide OTHER_TYPES; hide Separated; hide IsChoice;
    var b := TakenAttlist(r, p, l, k + 1, q);
    j, s := ChoiceFrom(r, p, l, k + 2, b);
    ChoiceEnds(l, k + 2, j, {Name});
    ChoiceIs(l, k + 2, j, {Name});
    assert l[k..j][1..] == l[k + 1..j];
  }

  lemma {:induction false} ChoiceEnds(l: Lexemes, k: nat, j: nat, tokens: set<Token>)
    requires Separated(l, k, j, tokens)
    ensures k < j <= |l|
  {
  }

  lemma {:induction false} DefaultFrom(r: Reader, p: Prolog, l: Lexemes, k: nat, q: Prolog) returns (j: nat, s: Prolog)
    requires Passed(r, p, l, k, q) && q.at == Attlist8
    ensures k < j <= |l| && Passed(r, p, l, j, s) && s.at == Attlist1 && IsDefault(l[k..j])
  {
    hide Passed; hide OTHER_TYPES;
    var a := TakenAttlist(r, p, l, k, q);
    j, s := k + 1, a;
    if a.at == Attlist9 {
      s := TakenAttlist(r, p, l, k + 1, a);
      j := k + 2;
      assert Kinds(l[k..j]) == [PoundName, Literal];
    } else {
      assert Kinds(l[k..j]) == [l[k].tok];
    }
  }

  lemma {:induction false} DefsFrom(r: Reader, p: Prolog, l: Lexemes, k: nat, q: Prolog) returns (j: nat, s: Prolog)
    requires Passed(r, p, l, k, q) && q.at == Attlist1 && k <= |l|
    ensures k < j <= |l| && Passed(r, p, l, j, s) && s.at == Subset && IsAttDefs(l[k..j])
    decreases |l| - k
  {
    hide Passed; hide OTHER_TYPES; hide IsAttType; hide IsDefault;
    var a := TakenAttlist(r, p, l, k, q);
    if a.at == Subset {
      j, s := k + 1, a;
      assert Kinds(l[k..j]) == [DeclClose];
    } else {
      var m, b := TypeFrom(r, p, l, k + 1, a);
      var n, c := DefaultFrom(r, p, l, m, b);
      j, s := DefsFrom(r, p, l, n, c);
      AttDefIs(l, k, m, n);
      DefsAre(l, k, n, j);
    }
  }

  lemma {:induction false} AttDefIs(l: Lexemes, k: nat, m: nat, n: nat)
    requires k + 1 < m < n <= |l| && l[k].tok == Name && IsAttType(l[k + 1..m]) && IsDefault(l[m..n])
    ensures IsAttDef(l[k..n])
  {
    hide IsAttType; hide IsDefault;
    var d := l[k..n];
    SliceOf(l, k, n, 1, m - k);
    SliceOf(l, k, n, m - k, n - k);
    assert d[m - k..] == d[m - k..n - k];
  }

  lemma {:induction false} DefsAre(l: Lexemes, k: nat, n: nat, j: nat)
    requires k < n <= j <= |l| && IsAttDef(l[k..n]) && IsAttDefs(l[n..j])
    ensures IsAttDefs(l[k..j])
  {
    hide IsAttDef;
    var d := l[k..j];
    assert d[..n - k] == l[k..n] && d[n - k..] == l[n..j];
  }

  // ---- Element types ----

  /** Only the ">" ends the declaration. */
  lemma {:induction false} CloseLeaves(st: XmlRole.DeclState, t: XmlRole.Lexeme)
    requires st.Valid() && st.handler != XmlRole.InternalSubset && st.handler != XmlRole.ErrorHandler && XmlRole.Move(st, t).Some?
    ensures XmlRole.Move(st, t).value.handler == XmlRole.InternalSubset <==> t.tok == DeclClose
  {
    hide XmlRole.WithConnector;
    XmlDeclared.ConnectorKeeps(st);
  }

  lemma {:induction false} TakenElement(r: Reader, p: Prolog, l: Lexemes, k: nat, q: Prolog) returns (s: Prolog)
    requires Passed(r, p, l, k, q) && q.at.InElement? && q.at.handler != XmlRole.InternalSubset
    ensures var st := XmlRole.DeclState(q.at.handler, q.open);
            && k < |l| && Passed(r, p, l, k + 1, s) && st.Valid() && XmlRole.Move(st, l[k]).Some?
            && var st' := XmlRole.Move(st, l[k]).value;
               && st'.handler != XmlRole.ErrorHandler && s.open == st'.open
               && s.at == (if l[k].tok == DeclClose then Subset else InElement(st'.handler))
               && (st'.handler == XmlRole.InternalSubset <==> l[k].tok == DeclClose)
  {
    hide XmlRole.Move; hide TokenRole;
    var x := l[k..][0];
    assert XmlRole.Lexeme(x.tok, x.text) == x;
    s := Turn(r, q, x.tok, x.text).prolog;
    var st := XmlRole.DeclState(q.at.handler, q.open);
    XmlDeclared.NoErrorHandler(st, x);
    CloseLeaves(st, x);
    assert l[k..][1..] == l[k + 1..];
  }

  /** What is taken up to the ">". */
  lemma {:induction false} ElementFrom(r: Reader, p: Prolog, l: Lexemes, k: nat, q: Prolog) returns (j: nat, s: Prolog)
    requires Passed(r, p, l, k, q) && q.at.InElement? && q.at.handler != XmlRole.InternalSubset && k <= |l|
    ensures k < j <= |l| && Passed(r, p, l, j, s) && s.at == Subset && l[j - 1].tok == DeclClose
    ensures var st := XmlRole.DeclState(q.at.handler, q.open); st.Valid() && XmlRole.Accepts(st, l[k..j])
    decreases |l| - k
  {
    hide Passed; hide XmlRole.Move; hide XmlRole.Accepts;
    var a := TakenElement(r, p, l, k, q);
    var st := XmlRole.DeclState(q.at.handler, q.open);
    if l[k].tok == DeclClose {
      j, s := k + 1, a;
      AtEndOfDeclaration(XmlRole.Move(st, l[k]).value);
    } else {
      j, s := ElementFrom(r, p, l, k + 1, a);
    }
    assert l[k..j] == [l[k]] + l[k + 1..j];
    XmlRole.AcceptsStep(st, l[k], l[k + 1..j]);
  }

  lemma {:induction false} AtEndOfDeclaration(st: XmlRole.DeclState)
    requires st.Valid() && st.handler == XmlRole.InternalSubset
    ensures XmlRole.Accepts(st, [])
  {
  }

  lemma {:induction false} NameFirst(r: Reader, p: Prolog, l: Lexemes, k: nat, q: Prolog) returns (s: Prolog)
    requires Passed(r, p, l, k, q) && q.at == InElement(XmlRole.Element0) && Solid(l)
    ensures k < |l| && l[k].tok == Name && Passed(r, p, l, k + 1, s) && s.at == InElement(XmlRole.Element1)
  {
    hide Passed;
    s := TakenElement(r, p, l, k, q);
  }

  lemma {:induction false} ElementTypeFrom(r: Reader, p: Prolog, l: Lexemes, k: nat, q: Prolog) returns (j: nat, s: Prolog)
    requires Passed(r, p, l, k, q) && q.at == InElement(XmlRole.Element0) && Solid(l) && k > 0 && l[k - 1] == Open("<!ELEMENT")
    ensures k < j <= |l| && Passed(r, p, l, j, s) && s.at == Subset && IsElement(l[k - 1..j])
  {
    hide Passed; hide XmlRole.Accepts; hide XmlRole.IsContentSpec;
    var a := NameFirst(r, p, l, k, q);
    j, s := ElementFrom(r, p, l, k + 1, a);
    var model := l[k + 1..j];
    var spec := XmlRole.SpecFound(a.open, model);
    SliceOf(l, k - 1, j, 2, j - k);
    assert model[..|model| - 1] == l[k + 1..j - 1];
  }

  // ---- The subset ----

  /** One declaration, from its first token on. */
  lemma {:induction false} DeclarationFrom(r: Reader, p: Prolog, l: Lexemes, k: nat, q: Prolog) returns (j: nat, s: Prolog)
    requires Passed(r, p, l, k, q) && q.at == Subset && Solid(l)
    ensures k < j <= |l| && Passed(r, p, l, j, s)
    ensures (s.at == Subset && IsDeclaration(l[k..j])) || (s.at == Doctype5 && j == k + 1 && l[k].tok == CloseBracket)
  {
    hide Passed; hide InEntity; hide InAttlist; hide IsEntity; hide IsNotation; hide IsAttDefs; hide IsElement; hide Solid;
    var a := TakenAt(r, p, l, k, q);
    j, s := k + 1, a;
    if a.at == Entity0 {
      j, s := EntityFrom(r, p, l, k + 1, a);
    } else if a.at == Notation0 {
      j, s := NotationFrom(r, p, l, k + 1, a);
    } else if a.at.InElement? {
      j, s := ElementTypeFrom(r, p, l, k + 1, a);
    } else if a.at == Attlist0 {
      j, s := AttlistFrom(r, p, l, k + 1, a);
    } else if a.at == Subset {
      assert Kinds(l[k..j]) == [l[k].tok];
    }
  }

  lemma {:induction false} AttlistFrom(r: Reader, p: Prolog, l: Lexemes, k: nat, q: Prolog) returns (j: nat, s: Prolog)
    requires Passed(r, p, l, k, q) && q.at == Attlist0 && k > 0 && l[k - 1] == Open("<!ATTLIST")
    ensures k < j <= |l| && Passed(r, p, l, j, s) && s.at == Subset && IsAttlist(l[k - 1..j])
  {
    hide Passed; hide IsAttDefs; hide OTHER_TYPES;
    var a := TakenAttlist(r, p, l, k, q);
    j, s := DefsFrom(r, p, l, k + 1, a);
    SliceOf(l, k - 1, j, 2, j - k + 1);
    assert l[k - 1..j][2..] == l[k - 1..j][2..j - k + 1];
  }

  lemma {:induction false} SubsetFrom(r: Reader, p: Prolog, l: Lexemes, k: nat, q: Prolog) returns (j: nat, s: Prolog)
    requires Passed(r, p, l, k, q) && q.at == Subset && Solid(l) && k <= |l|
    ensures k < j <= |l| && Passed(r, p, l, j, s) && s.at == Doctype5 && l[j - 1].tok == CloseBracket && IsSubset(l[k..j - 1])
    decreases |l| - k
  {
    hide Passed; hide IsDeclaration; hide Solid;
    var m, a := DeclarationFrom(r, p, l, k, q);
    if a.at == Doctype5 {
      j, s := m, a;
      assert l[k..j - 1] == [];
    } else {
      j, s := SubsetFrom(r, p, l, m, a);
      SubsetIs(l, k, m, j - 1);
    }
  }

  lemma {:induction false} SubsetIs(l: Lexemes, k: nat, n: nat, j: nat)
    requires k < n <= j <= |l| && IsDeclaration(l[k..n]) && IsSubset(l[n..j])
    ensures IsSubset(l[k..j])
  {
    hide IsDeclaration;
    var d := l[k..j];
    SliceOf(l, k, j, 0, n - k);
    SliceOf(l, k, j, n - k, j - k);
    assert d[..n - k] == d[0..n - k] && d[n - k..] == d[n - k..j - k];
  }

  // ---- The whole ----

  /** Behind the name, or behind the external identifier. */
  lemma {:induction false} EndFrom(r: Reader, p: Prolog, l: Lexemes, k: nat, q: Prolog) returns (j: nat, s: Prolog)
    requires Passed(r, p, l, k, q) && (q.at == Doctype1 || q.at == Doctype4) && Solid(l) && k < |l| && l[k].tok != Name
    ensures k < j <= |l| && Passed(r, p, l, j, s) && s.at == Prolog2 && IsEnd(l[k..j])
  {
    hide Passed; hide InEntity; hide InAttlist; hide IsSubset; hide Solid;
    var a := TakenAt(r, p, l, k, q);
    if a.at == Prolog2 {
      j, s := k + 1, a;
      assert Kinds(l[k..j]) == [DeclClose];
    } else {
      j, s := BracketFrom(r, p, l, k, a);
    }
  }

  lemma {:induction false} BracketFrom(r: Reader, p: Prolog, l: Lexemes, k: nat, q: Prolog) returns (j: nat, s: Prolog)
    requires k < |l| && l[k].tok == OpenBracket && Passed(r, p, l, k + 1, q) && q.at == Subset && Solid(l)
    ensures k < j <= |l| && Passed(r, p, l, j, s) && s.at == Prolog2 && IsEnd(l[k..j])
  {
    hide Passed; hide InEntity; hide InAttlist; hide IsSubset; hide Solid; hide IsEnd;
    var m, b := SubsetFrom(r, p, l, k + 1, q);
    s := TakenAt(r, p, l, m, b);
    j := m + 1;
    SubsetEndIs(l, k, j);
  }

  lemma {:induction false} SubsetEndIs(l: Lexemes, k: nat, j: nat)
    requires k + 2 < j <= |l| && l[k].tok == OpenBracket && l[j - 2].tok == CloseBracket && l[j - 1].tok == DeclClose && IsSubset(l[k + 1..j - 2])
    ensures IsEnd(l[k..j])
  {
    hide IsSubset; hide Kinds;
    SliceOf(l, k, j, 1, j - k - 2);
  }

  /** The external identifier. */
  lemma {:induction false} IdFrom(r: Reader, p: Prolog, l: Lexemes, k: nat, q: Prolog) returns (j: nat, s: Prolog)
    requires Passed(r, p, l, k, q) && q.at == Doctype1 && k < |l| && l[k].tok == Name
    ensures k < j <= |l| && Passed(r, p, l, j, s) && s.at == Doctype4 && IsId(l[k..j])
  {
    hide Passed; hide InEntity; hide InAttlist; hide IsId;
    var a := TakenAt(r, p, l, k, q);
    if a.at == Doctype3 {
      s := TakenAt(r, p, l, k + 1, a);
      j := k + 2;
      SystemIs(l, k);
    } else {
      var b := TakenAt(r, p, l, k + 1, a);
      s := TakenAt(r, p, l, k + 2, b);
      j := k + 3;
      PublicIs(l, k);
    }
  }

  lemma {:induction false} DoctypeFrom(r: Reader, p: Prolog, l: Lexemes, k: nat, q: Prolog) returns (j: nat, s: Prolog)
    requires Passed(r, p, l, k, q) && q.at == Doctype0 && Solid(l) && k > 0 && l[k - 1] == Open("<!DOCTYPE")
    ensures k < j <= |l| && Passed(r, p, l, j, s) && s.at == Prolog2 && IsDoctype(l[k - 1..j])
  {
    hide Passed; hide IsId; hide IsEnd; hide Solid; hide TokenRole; hide IsDoctype;
    var a := DoctypeNamed(r, p, l, k, q);
    NotOver(r, p, l, k + 1, a);
    if l[k + 1].tok == Name {
      var m, b := IdFrom(r, p, l, k + 1, a);
      NotOver(r, p, l, m, b);
      NoSecondName(r, p, l, m, b);
      j, s := EndFrom(r, p, l, m, b);
      WithIdIs(l, k, m, j);
    } else {
      j, s := EndFrom(r, p, l, k + 1, a);
      WithoutIdIs(l, k, j);
    }
  }

  lemma {:induction false} DoctypeNamed(r: Reader, p: Prolog, l: Lexemes, k: nat, q: Prolog) returns (s: Prolog)
    requires Passed(r, p, l, k, q) && q.at == Doctype0
    ensures k < |l| && l[k].tok == Name && Passed(r, p, l, k + 1, s) && s.at == Doctype1
  {
    hide Passed; hide InEntity; hide InAttlist;
    s := TakenAt(r, p, l, k, q);
  }

  lemma {:induction false} WithoutIdIs(l: Lexemes, k: nat, j: nat)
    requires 0 < k < j - 1 < |l| && l[k - 1] == Open("<!DOCTYPE") && l[k].tok == Name && IsEnd(l[k + 1..j])
    ensures IsDoctype(l[k - 1..j])
  {
    hide IsEnd;
    SliceOf(l, k - 1, j, 2, j - k + 1);
    assert l[k - 1..j][2..] == l[k - 1..j][2..j - k + 1];
  }

  lemma {:induction false} WithIdIs(l: Lexemes, k: nat, m: nat, j: nat)
    requires 0 < k < m - 1 < j <= |l| && m <= j && l[k - 1] == Open("<!DOCTYPE") && l[k].tok == Name && IsId(l[k + 1..m]) && IsEnd(l[m..j])
    ensures IsDoctype(l[k - 1..j])
  {
    hide IsEnd; hide IsId;
    var d := l[k - 1..j];
    SliceOf(l, k - 1, j, 2, m - k + 1);
    SliceOf(l, k - 1, j, m - k + 1, j - k + 1);
    assert d[m - k + 1..] == d[m - k + 1..j - k + 1];
  }

  lemma {:induction false} NotOver(r: Reader, p: Prolog, l: Lexemes, k: nat, q: Prolog)
    requires Passed(r, p, l, k, q) && !Outside(q.at)
    ensures k < |l|
  {
  }

  lemma {:induction false} NoSecondName(r: Reader, p: Prolog, l: Lexemes, k: nat, q: Prolog)
    requires Passed(r, p, l, k, q) && q.at == Doctype4 && k < |l|
    ensures l[k].tok != Name
  {
    hide Passed; hide InEntity; hide InAttlist;
    var s := TakenAt(r, p, l, k, q);
  }

  lemma {:induction false} AsidesFrom(r: Reader, p: Prolog, l: Lexemes, k: nat, q: Prolog)
    requires Passed(r, p, l, k, q) && q.at == Prolog2 && k <= |l|
    ensures Asides(l[k..])
    decreases |l| - k
  {
    hide Passed; hide InEntity; hide InAttlist;
    if k < |l| {
      var a := TakenAt(r, p, l, k, q);
      AsidesFrom(r, p, l, k + 1, a);
      assert l[k..] == [l[k]] + l[k + 1..];
    }
  }

  /** Comments and instructions, up to the document type declaration or to the end. */
  lemma {:induction false} FrontFrom(r: Reader, p: Prolog, l: Lexemes, k: nat, q: Prolog) returns (i: nat, s: Prolog)
    requires Passed(r, p, l, k, q) && q.at == Prolog1 && k <= |l|
    ensures k <= i <= |l| && Asides(l[k..i])
    ensures i < |l| ==> l[i] == Open("<!DOCTYPE") && Passed(r, p, l, i + 1, s) && s.at == Doctype0
    decreases |l| - k
  {
    hide Passed; hide InEntity; hide InAttlist;
    i, s := k, q;
    if k < |l| {
      var a := TakenAt(r, p, l, k, q);
      if a.at == Doctype0 {
        s := a;
      } else {
        i, s := FrontFrom(r, p, l, k + 1, a);
        assert l[k..i] == [l[k]] + l[k + 1..i];
      }
    }
  }

  lemma {:induction false} AtStart(r: Reader, p: Prolog, l: Lexemes)
    requires Arrives(r, p, l)
    ensures Passed(r, p, l, 0, p)
  {
    hide After;
    assert l[0..] == l;
  }

  /** The XML declaration, if there is one. */
  lemma {:induction false} StartFrom(r: Reader, p: Prolog, l: Lexemes) returns (i: nat, s: Prolog)
    requires Arrives(r, p, l) && (p.at == Prolog0 || p.at == Prolog1)
    ensures i <= |l| && Front(l[..i])
    ensures i < |l| ==> l[i] == Open("<!DOCTYPE") && Passed(r, p, l, i + 1, s) && s.at == Doctype0
  {
    hide Passed; hide InEntity; hide InAttlist; hide Arrives;
    AtStart(r, p, l);
    i, s := 0, p;
    if l != [] {
      var a := TakenAt(r, p, l, 0, p);
      if a.at == Doctype0 {
        s := a;
      } else {
        i, s := FrontFrom(r, p, l, 1, a);
        assert l[..i][1..] == l[1..i];
        assert l[..i] == [l[0]] + l[1..i];
      }
    }
  }

  /** Whatever tokens are taken are those of a prolog. */
  lemma {:induction false} OnlyProlog(r: Reader, p: Prolog, l: Lexemes)
    requires Arrives(r, p, l) && (p.at == Prolog0 || p.at == Prolog1)
    ensures IsProlog(l)
  {
    hide Passed; hide IsDoctype; hide Front; hide Arrives; hide Solid; hide Asides;
    var i, a := StartFrom(r, p, l);
    if i == |l| {
      NoneBehind(l);
    } else {
      ArrivesSolid(r, p, l);
      var j, b := DoctypeFrom(r, p, l, i + 1, a);
      AsidesFrom(r, p, l, j, b);
    }
  }

  lemma {:induction false} NoneBehind(l: Lexemes)
    ensures Asides(l[|l|..])
  {
  }

  lemma {:induction false} ArrivesSolid(r: Reader, p: Prolog, l: Lexemes)
    requires Arrives(r, p, l)
    ensures Solid(l)
  {
  }

  // ---- From the bytes ----

  /** The tokens in front of the root element. */
  function TokensOf(enc: Encoding, w: string): Lexemes
    decreases |w|
  {
    match PrologTok(enc, w)
    case Tok(tok, n) => if tok == InstanceStart || n == 0 then [] else [XmlRole.Lexeme(tok, w[..n])] + TokensOf(enc, w[n..])
    case _ => []
  }

  lemma {:induction false} RootAllowed(r: Reader, p: Prolog, text: string)
    requires Turn(r, p, InstanceStart, text).StartInstance?
    ensures Outside(p.at)
  {
    if p.at.InElement? { ElementTurn(r, p, InstanceStart, text); } else { InstanceRoles(p.at, text); }
  }

  lemma {:induction false} InstanceRoles(h: PrologHandler, text: string)
    requires !h.InElement? && TokenRole(h, InstanceStart, text).Some?
    ensures Outside(h)
  {
    EntityRoles(h, InstanceStart, text);
    AttlistRoles(h, InstanceStart, text);
    hide InEntity; hide InAttlist;
  }

  lemma {:induction false} PrologTokens(r: Reader, p: Prolog, w: string)
    requires ProcessProlog(ReaderEnv(r), p, w, true).outcome.Stopped?
    ensures var q := After(r, p, TokensOf(r.enc, w)); q.Some? && Outside(q.value.at)
    decreases |w|
  {
    hide PrologTok; hide Turn; hide Content;
    var v := PrologTok(r.enc, w);
    var a := Turn(r, p, v.tok, w[..v.next]);
    if a.StartInstance? {
      ReaderLaws(r);
      assert ReaderEnv(r).role(p, v.tok, w[..v.next]) == a;
      RootAllowed(r, p, w[..v.next]);
    } else {
      PrologTokens(r, a.prolog, w[v.next..]);
      assert ([XmlRole.Lexeme(v.tok, w[..v.next])] + TokensOf(r.enc, w[v.next..]))[1..] == TokensOf(r.enc, w[v.next..]);
      ReaderLaws(r);
    }
  }

  /** White space tokens make no difference. */
  lemma {:induction false} Unspaced(r: Reader, p: Prolog, l: Lexemes) returns (q: Prolog)
    requires After(r, p, l).Some? && (p.at.InElement? ==> Calm(p))
    ensures q == p || (p.at == Prolog0 && q.at == Prolog1)
    ensures After(r, q, XmlRole.NoSpace(l)) == After(r, p, l)
    decreases |l|
  {
    hide Turn; hide Calm;
    q := p;
    if l != [] {
      var a := Turn(r, p, l[0].tok, l[0].text).prolog;
      TurnSettles(r, p, l[0]);
      CalmStarted(a);
      var b := Unspaced(r, a, l[1..]);
      if l[0].tok == PrologS {
        SpaceStarts(r, p, l[0].text);
        q := b;
        assert [] + XmlRole.NoSpace(l[1..]) == XmlRole.NoSpace(l[1..]);
      } else {
        OneMore(r, p, l[0], XmlRole.NoSpace(l[1..]));
      }
    }
  }

  lemma {:induction false} CalmStarted(p: Prolog)
    requires Calm(p)
    ensures p.at != Prolog0
  {
  }

  lemma {:induction false} SpaceStarts(r: Reader, p: Prolog, text: string)
    requires Turn(r, p, PrologS, text).Continue?
    ensures Turn(r, p, PrologS, text) == Continue(if p.at == Prolog0 then p.(at := Prolog1) else p)
  {
    hide TokenRole;
    if p.at.InElement? { ElementTurn(r, p, PrologS, text); } else { SpaceTurn(r, p, text); }
  }

  /** Whatever document parses has, in front of its root, white space aside, the tokens of a prolog. */
  lemma {:induction false} PrologOnly(r: Reader, dtd: Dtd, chunks: seq<string>, last: string)
    requires ParseOf(r, dtd, chunks, last).outcome.Stopped?
    ensures IsProlog(XmlRole.NoSpace(TokensOf(r.enc, Concat(chunks) + last)))
  {
    hide XmlChunks.Parse; hide ProcessProlog; hide RoleLaws; hide Turn; hide IsProlog; hide TokensOf; hide After;
    var w := Concat(chunks) + last;
    ReaderLaws(r);
    ParseExtends(ReaderEnv(r), PrologPhase, Initial(dtd), [], "", chunks, last);
    assert "" + w == w;
    PrologTokens(r, Initial(dtd), w);
    var q := Unspaced(r, Initial(dtd), TokensOf(r.enc, w));
    NoneSpaced(TokensOf(r.enc, w));
    OnlyProlog(r, q, XmlRole.NoSpace(TokensOf(r.enc, w)));
  }

  lemma {:induction false} NoneSpaced(l: Lexemes)
    ensures Solid(XmlRole.NoSpace(l))
  {
  }
}
