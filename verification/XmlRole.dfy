/**
 Element type declarations: the handlers element1 to element7 and declClose of
 libjabber/xmlrole.c with their nesting counter, and the connector kept for
 every open group by prologProcessor of libjabber/xmlparse.c.

 Together they are a pushdown automaton.  It accepts exactly the content
 specifications of sections 3.2, 3.2.1 and 3.2.2 of XML 1.0, at any depth.
 */
module XmlRole {
  import opened XmlScan
  import opened XmlValue

  /** A prolog token with its bytes. */
  datatype Lexeme = Lexeme(tok: Token, text: string)

  datatype Handler =
    | Element0 | Element1 | Element2 | Element3 | Element4 | Element5 | Element6 | Element7
    | DeclCloseHandler | InternalSubset | ErrorHandler

  datatype Role =
    | RoleError | RoleNone | RoleElementName | RoleContentAny | RoleContentEmpty | RoleContentPcdata | RoleGroupOpen
    | RoleGroupClose(occ: Occurrence) | RoleGroupChoice | RoleGroupSequence | RoleContentElement(occ: Occurrence)

  datatype Occurrence = Once | Optional | Repeated | AtLeastOnce

  // ---- The grammar ----

  /** A content particle: an element type, or a group whose particles all are separated by "|", or all by ",". */
  datatype Particle = Leaf(text: string, occ: Occurrence) | Group(choice: bool, items: Items, occ: Occurrence)

  datatype Items = One(only: Particle) | Several(first: Particle, rest: Items)

  /** EMPTY, ANY, mixed content, which has to be starred when it names element types, or a group. */
  datatype ContentSpec =
    | EmptySpec
    | AnySpec
    | Mixed(names: seq<string>, starred: bool)
    | Children(choice: bool, items: Items, occ: Occurrence)
  {
    predicate Legal() { Mixed? && names != [] ==> starred }
  }

  function NameTok(occ: Occurrence): Token
  {
    match occ case Once => Name case Optional => NameQuestion case Repeated => NameAsterisk case AtLeastOnce => NamePlus
  }

  function CloseTok(occ: Occurrence): Token
  {
    match occ
    case Once => CloseParen
    case Optional => CloseParenQuestion
    case Repeated => CloseParenAsterisk
    case AtLeastOnce => CloseParenPlus
  }

  function Separator(choice: bool): Token { if choice then Or else Comma }

  /** Whether the tokens are those of the particle; the bytes of a punctuation token do not matter. */
  ghost predicate IsParticle(p: Particle, l: seq<Lexeme>)
    decreases p, 0
  {
    match p
    case Leaf(text, occ) => l == [Lexeme(NameTok(occ), text)]
    case Group(choice, items, occ) => IsGroup(choice, items, occ, l)
  }

  ghost predicate IsGroup(choice: bool, items: Items, occ: Occurrence, l: seq<Lexeme>)
    decreases items, 1
  {
    |l| >= 2 && l[0].tok == OpenParen && l[|l| - 1].tok == CloseTok(occ) && IsItems(choice, items, l[1..|l| - 1])
  }

  ghost predicate IsItems(choice: bool, items: Items, l: seq<Lexeme>)
    decreases items, 0
  {
    match items
    case One(p) => IsParticle(p, l)
    case Several(p, rest) =>
      exists k :: 0 <= k < |l| && l[k].tok == Separator(choice) && IsParticle(p, l[..k]) && IsItems(choice, rest, l[k + 1..])
  }

  ghost predicate IsMixedRest(names: seq<string>, starred: bool, l: seq<Lexeme>)
    decreases |names|
  {
    if names == [] then |l| == 1 && l[0].tok == (if starred then CloseParenAsterisk else CloseParen)
    else |l| >= 2 && l[0].tok == Or && l[1] == Lexeme(Name, names[0]) && IsMixedRest(names[1..], starred, l[2..])
  }

  ghost predicate IsContentSpec(spec: ContentSpec, l: seq<Lexeme>)
  {
    match spec
    case EmptySpec => l == [Lexeme(Name, "EMPTY")]
    case AnySpec => l == [Lexeme(Name, "ANY")]
    case Mixed(names, starred) => |l| >= 2 && l[0].tok == OpenParen && l[1] == Lexeme(PoundName, "#PCDATA") && IsMixedRest(names, starred, l[2..])
    case Children(choice, items, occ) => IsGroup(choice, items, occ, l)
  }

  // ---- The automaton ----

  /** What a handler does: the handler and the level afterwards, and the role of the token. */
  datatype Reaction = Reaction(handler: Handler, level: nat, role: Role)

  function SyntaxError(level: nat): Reaction { Reaction(ErrorHandler, level, RoleError) }

  function InGroup(level: nat, tok: Token): Reaction
  {
    match tok
    case Name => Reaction(Element7, level, RoleContentElement(Once))
    case NameQuestion => Reaction(Element7, level, RoleContentElement(Optional))
    case NameAsterisk => Reaction(Element7, level, RoleContentElement(Repeated))
    case NamePlus => Reaction(Element7, level, RoleContentElement(AtLeastOnce))
    case _ => SyntaxError(level)
  }

  function CloseGroup(level: nat, occ: Occurrence): Reaction
    requires level > 0
  {
    Reaction(if level == 1 then DeclCloseHandler else Element7, level - 1, RoleGroupClose(occ))
  }

  function React(h: Handler, level: nat, t: Lexeme): Reaction
    requires h == Element7 ==> level > 0
  {
    if t.tok == PrologS && h != InternalSubset && h != ErrorHandler then Reaction(h, level, RoleNone)
    else
      match h
      case Element0 => if t.tok == Name then Reaction(Element1, level, RoleElementName) else SyntaxError(level)
      case Element1 =>
        if t.tok == Name && t.text == "EMPTY" then Reaction(DeclCloseHandler, level, RoleContentEmpty)
        else if t.tok == Name && t.text == "ANY" then Reaction(DeclCloseHandler, level, RoleContentAny)
        else if t.tok == OpenParen then Reaction(Element2, 1, RoleGroupOpen)
        else SyntaxError(level)
      case Element2 =>
        if t.tok == PoundName && t.text == "#PCDATA" then Reaction(Element3, level, RoleContentPcdata)
        else if t.tok == OpenParen then Reaction(Element6, 2, RoleGroupOpen)
        else InGroup(level, t.tok)
      case Element3 =>
        if t.tok == CloseParen || t.tok == CloseParenAsterisk then Reaction(DeclCloseHandler, level, RoleGroupClose(Repeated))
        else if t.tok == Or then Reaction(Element4, level, RoleNone)
        else SyntaxError(level)
      case Element4 => if t.tok == Name then Reaction(Element5, level, RoleContentElement(Once)) else SyntaxError(level)
      case Element5 =>
        if t.tok == CloseParenAsterisk then Reaction(DeclCloseHandler, level, RoleGroupClose(Repeated))
        else if t.tok == Or then Reaction(Element4, level, RoleNone)
        else SyntaxError(level)
      case Element6 => if t.tok == OpenParen then Reaction(Element6, level + 1, RoleGroupOpen) else InGroup(level, t.tok)
      case Element7 =>
        (match t.tok
         case CloseParen => CloseGroup(level, Once)
         case CloseParenAsterisk => CloseGroup(level, Repeated)
         case CloseParenQuestion => CloseGroup(level, Optional)
         case CloseParenPlus => CloseGroup(level, AtLeastOnce)
         case Comma => Reaction(Element6, level, RoleGroupSequence)
         case Or => Reaction(Element6, level, RoleGroupChoice)
         case _ => SyntaxError(level))
      case DeclCloseHandler => if t.tok == DeclClose then Reaction(InternalSubset, level, RoleNone) else SyntaxError(level)
      case InternalSubset => SyntaxError(level)
      case ErrorHandler => Reaction(h, level, RoleNone)
  }

  /** The connector of an open group: none seen yet, "|" or ",". */
  datatype Connector = Unset | Bar | CommaSign

  /** The handler, and the connectors of the open groups, the innermost last; the level is their number. */
  datatype DeclState = DeclState(handler: Handler, open: seq<Connector>)
  {
    predicate Valid()
    {
      && (handler == Element2 ==> |open| == 1)
      && (handler == Element6 || handler == Element7 ==> open != [])
    }
  }

  function WithConnector(st: DeclState, h: Handler, c: Connector): Option<DeclState>
    requires st.open != []
  {
    var last := st.open[|st.open| - 1];
    if last != Unset && last != c then None else Some(DeclState(h, st.open[..|st.open| - 1] + [c]))
  }

  /** One token: the role automaton, and the connector check of prologProcessor. */
  function Move(st: DeclState, t: Lexeme): (r: Option<DeclState>)
    requires st.Valid()
    ensures r.Some? ==> r.value.Valid()
  {
    var a := React(st.handler, |st.open|, t);
    match a.role
    case RoleError => None
    case RoleGroupOpen => Some(DeclState(a.handler, (if st.handler == Element1 then [] else st.open) + [Unset]))
    case RoleGroupClose(_) =>
      Some(DeclState(a.handler, if st.handler == Element7 then st.open[..|st.open| - 1] else st.open))
    case RoleGroupSequence => WithConnector(st, a.handler, CommaSign)
    case RoleGroupChoice => WithConnector(st, a.handler, Bar)
    case _ => Some(DeclState(a.handler, st.open))
  }

  function Run(st: DeclState, l: seq<Lexeme>): (r: Option<DeclState>)
    requires st.Valid()
    ensures r.Some? ==> r.value.Valid()
    decreases |l|
  {
    if l == [] then Some(st)
    else match Move(st, l[0]) case None => None case Some(st') => Run(st', l[1..])
  }

  /** The tokens lead to the end of the declaration. */
  predicate Accepts(st: DeclState, l: seq<Lexeme>)
    requires st.Valid()
  {
    Run(st, l).Some? && Run(st, l).value.handler == InternalSubset
  }

  lemma {:induction false} AcceptsStep(st: DeclState, t: Lexeme, l: seq<Lexeme>)
    requires st.Valid()
    ensures Accepts(st, [t] + l) <==> Move(st, t).Some? && Accepts(Move(st, t).value, l)
  {
    assert ([t] + l)[1..] == l;
  }

  predicate IsName(tok: Token) { tok == Name || tok == NameQuestion || tok == NameAsterisk || tok == NamePlus }

  predicate IsClose(tok: Token) { tok == CloseParen || tok == CloseParenQuestion || tok == CloseParenAsterisk || tok == CloseParenPlus }

  function AfterGroup(open: seq<Connector>): DeclState { DeclState(if open == [] then DeclCloseHandler else Element7, open) }

  /** The moves where a particle is expected, and where one has been seen. */
  lemma {:induction false} Expected(open: seq<Connector>, t: Lexeme)
    requires open != []
    ensures Move(DeclState(Element6, open), t) ==
              if t.tok == PrologS then Some(DeclState(Element6, open))
              else if t.tok == OpenParen then Some(DeclState(Element6, open + [Unset]))
              else if IsName(t.tok) then Some(DeclState(Element7, open))
              else None
  {
  }

  lemma {:induction false} Seen(open: seq<Connector>, c: Connector, t: Lexeme)
    ensures Move(DeclState(Element7, open + [c]), t) ==
              if t.tok == PrologS then Some(DeclState(Element7, open + [c]))
              else if IsClose(t.tok) then Some(AfterGroup(open))
              else if t.tok == Comma then (if c == Bar then None else Some(DeclState(Element6, open + [CommaSign])))
              else if t.tok == Or then (if c == CommaSign then None else Some(DeclState(Element6, open + [Bar])))
              else None
  {
    assert (open + [c])[..|open|] == open;
  }

  /** The moves around mixed content. */
  lemma {:induction false} InMixed(t: Lexeme)
    ensures var open := [Unset];
            && Move(DeclState(Element3, open), t) ==
                 (if t.tok == PrologS then Some(DeclState(Element3, open))
                  else if t.tok == CloseParen || t.tok == CloseParenAsterisk then Some(DeclState(DeclCloseHandler, open))
                  else if t.tok == Or then Some(DeclState(Element4, open)) else None)
            && Move(DeclState(Element4, open), t) ==
                 (if t.tok == PrologS then Some(DeclState(Element4, open)) else if t.tok == Name then Some(DeclState(Element5, open)) else None)
            && Move(DeclState(Element5, open), t) ==
                 (if t.tok == PrologS then Some(DeclState(Element5, open))
                  else if t.tok == CloseParenAsterisk then Some(DeclState(DeclCloseHandler, open))
                  else if t.tok == Or then Some(DeclState(Element4, open)) else None)
  {
  }

  lemma {:induction false} AtStart(open: seq<Connector>, t: Lexeme)
    ensures var st := DeclState(Element1, open);
            Move(st, t) == if t.tok == PrologS then Some(st)
                           else if t == Lexeme(Name, "EMPTY") || t == Lexeme(Name, "ANY") then Some(DeclState(DeclCloseHandler, open))
                           else if t.tok == OpenParen then Some(DeclState(Element2, [Unset]))
                           else None
    ensures var st := DeclState(Element2, [Unset]);
            Move(st, t) == if t.tok == PrologS then Some(st)
                           else if t == Lexeme(PoundName, "#PCDATA") then Some(DeclState(Element3, [Unset]))
                           else Move(DeclState(Element6, [Unset]), t)
  {
    hide Move;
    AtContent(open, t);
    AtMixed(t);
  }

  lemma {:induction false} AtContent(open: seq<Connector>, t: Lexeme)
    ensures var st := DeclState(Element1, open);
            Move(st, t) == if t.tok == PrologS then Some(st)
                           else if t == Lexeme(Name, "EMPTY") || t == Lexeme(Name, "ANY") then Some(DeclState(DeclCloseHandler, open))
                           else if t.tok == OpenParen then Some(DeclState(Element2, [Unset]))
                           else None
  {
    assert [] + [Unset] == [Unset];
  }

  lemma {:induction false} AtMixed(t: Lexeme)
    ensures var st := DeclState(Element2, [Unset]);
            Move(st, t) == if t.tok == PrologS then Some(st)
                           else if t == Lexeme(PoundName, "#PCDATA") then Some(DeclState(Element3, [Unset]))
                           else Move(DeclState(Element6, [Unset]), t)
  {
  }

  lemma {:induction false} AtEnd(open: seq<Connector>, t: Lexeme)
    ensures var st := DeclState(DeclCloseHandler, open);
            Move(st, t) == if t.tok == PrologS then Some(st) else if t.tok == DeclClose then Some(DeclState(InternalSubset, open)) else None
    ensures Move(DeclState(InternalSubset, open), t) == None
  {
  }

  lemma {:induction false} OnlyAtTheEnd(st: DeclState, t: Lexeme)
    requires st.Valid() && st.handler != ErrorHandler && Move(st, t).Some?
    ensures var st' := Move(st, t).value;
            st'.handler != ErrorHandler && (st'.handler == InternalSubset ==> t.tok == DeclClose) && (t.tok == PrologS ==> st' == st)
  {
  }

  // ---- Completeness: what the grammar produces is accepted ----

  predicate Fits(c: Connector, choice: bool) { c == Unset || c == ConnectorOf(choice) }

  /** Inside a group, a particle leads from "particle expected" to "particle seen". */
  lemma {:induction false} ParticleAccepted(p: Particle, l: seq<Lexeme>, open: seq<Connector>, t: seq<Lexeme>)
    requires open != [] && IsParticle(p, l)
    ensures Accepts(DeclState(Element6, open), l + t) == Accepts(DeclState(Element7, open), t)
    decreases p, 1
  {
    hide Move; hide Accepts;
    match p
    case Leaf(text, occ) =>
      Expected(open, l[0]);
      AcceptsStep(DeclState(Element6, open), l[0], t);
    case Group(choice, items, occ) =>
      var inner, last := l[1..|l| - 1], l[|l| - 1];
      assert l + t == [l[0]] + (inner + ([last] + t));
      Expected(open, l[0]);
      AcceptsStep(DeclState(Element6, open), l[0], inner + ([last] + t));
      ItemsAccepted(choice, items, inner, open, Unset, last, t);
  }

  lemma {:induction false} CloseAccepted(open: seq<Connector>, c: Connector, last: Lexeme, t: seq<Lexeme>)
    requires IsClose(last.tok)
    ensures Accepts(DeclState(Element7, open + [c]), [last] + t) == Accepts(AfterGroup(open), t)
  {
    hide Move; hide Accepts;
    Seen(open, c, last);
    AcceptsStep(DeclState(Element7, open + [c]), last, t);
  }

  function ConnectorOf(choice: bool): Connector { if choice then Bar else CommaSign }

  lemma {:induction false} SeparatorAccepted(choice: bool, open: seq<Connector>, c: Connector, sep: Lexeme, t: seq<Lexeme>)
    requires sep.tok == Separator(choice) && Fits(c, choice)
    ensures Accepts(DeclState(Element7, open + [c]), [sep] + t) == Accepts(DeclState(Element6, open + [ConnectorOf(choice)]), t)
  {
    hide Move; hide Accepts;
    Seen(open, c, sep);
    AcceptsStep(DeclState(Element7, open + [c]), sep, t);
  }

  lemma {:induction false} SplitItems(choice: bool, items: Items, l: seq<Lexeme>) returns (k: nat)
    requires items.Several? && IsItems(choice, items, l)
    ensures k < |l| && l[k].tok == Separator(choice) && IsParticle(items.first, l[..k]) && IsItems(choice, items.rest, l[k + 1..])
  {
    hide IsParticle;
    k :| 0 <= k < |l| && l[k].tok == Separator(choice) && IsParticle(items.first, l[..k]) && IsItems(choice, items.rest, l[k + 1..]);
  }

  /** Behind "(" or a separator, the rest of a group leads out of the group. */
  lemma {:induction false} ItemsAccepted(choice: bool, items: Items, l: seq<Lexeme>, open: seq<Connector>, c: Connector, last: Lexeme, t: seq<Lexeme>)
    requires IsItems(choice, items, l) && Fits(c, choice) && IsClose(last.tok)
    ensures Accepts(DeclState(Element6, open + [c]), l + ([last] + t)) == Accepts(AfterGroup(open), t)
    decreases items, 0
  {
    hide Move; hide Accepts; hide IsParticle; hide AfterGroup; hide Separator;
    if items.One? {
      ParticleAccepted(items.only, l, open + [c], [last] + t);
      CloseAccepted(open, c, last, t);
    } else {
      hide IsItems;
      var k := SplitItems(choice, items, l);
      var more := l[k + 1..] + ([last] + t);
      assert l + ([last] + t) == l[..k] + ([l[k]] + more);
      ParticleAccepted(items.first, l[..k], open + [c], [l[k]] + more);
      SeparatorAccepted(choice, open, c, l[k], more);
      ItemsAccepted(choice, items.rest, l[k + 1..], open, ConnectorOf(choice), last, t);
    }
  }

  lemma {:induction false} MixedAccepted(names: seq<string>, starred: bool, h: Handler, l: seq<Lexeme>, t: seq<Lexeme>)
    requires IsMixedRest(names, starred, l) && (h == Element3 || h == Element5)
    requires (names != [] || h == Element5) ==> starred
    ensures Accepts(DeclState(h, [Unset]), l + t) == Accepts(DeclState(DeclCloseHandler, [Unset]), t)
    decreases |names|
  {
    hide Move; hide Accepts;
    InMixed(l[0]);
    if names == [] {
      assert l + t == [l[0]] + t;
      AcceptsStep(DeclState(h, [Unset]), l[0], t);
    } else {
      assert l + t == [l[0]] + ([l[1]] + (l[2..] + t));
      InMixed(l[1]);
      AcceptsStep(DeclState(h, [Unset]), l[0], [l[1]] + (l[2..] + t));
      AcceptsStep(DeclState(Element4, [Unset]), l[1], l[2..] + t);
      MixedAccepted(names[1..], starred, Element5, l[2..], t);
    }
  }

  /** On its first token a group that is not mixed content is read as any other. */
  lemma {:induction false} FirstInGroup(l: seq<Lexeme>)
    requires l != [] ==> l[0].tok != PoundName && l[0].tok != PrologS
    ensures Accepts(DeclState(Element2, [Unset]), l) == Accepts(DeclState(Element6, [Unset]), l)
  {
    hide Move;
    if l != [] { AtStart([], l[0]); }
  }

  lemma {:induction false} ParticleStart(p: Particle, l: seq<Lexeme>)
    requires IsParticle(p, l)
    ensures l != [] && (l[0].tok == OpenParen || IsName(l[0].tok))
  {
    hide IsItems;
  }

  lemma {:induction false} ItemsStart(choice: bool, items: Items, l: seq<Lexeme>)
    requires IsItems(choice, items, l)
    ensures l != [] && (l[0].tok == OpenParen || IsName(l[0].tok))
  {
    hide IsParticle;
    match items
    case One(p) => ParticleStart(p, l);
    case Several(p, rest) =>
      var k :| 0 <= k < |l| && IsParticle(p, l[..k]);
      ParticleStart(p, l[..k]);
  }

  lemma {:induction false} EndAccepted(open: seq<Connector>, last: Lexeme)
    requires last.tok == DeclClose
    ensures Accepts(DeclState(DeclCloseHandler, open), [last])
  {
    hide Move;
    AtEnd(open, last);
    assert [last][1..] == [];
    assert Run(DeclState(InternalSubset, open), []) == Some(DeclState(InternalSubset, open));
  }

  lemma {:induction false} ChildrenAccepted(before: seq<Connector>, choice: bool, items: Items, occ: Occurrence, l: seq<Lexeme>, last: Lexeme)
    requires IsGroup(choice, items, occ, l) && last.tok == DeclClose
    ensures Accepts(DeclState(Element1, before), l + [last])
  {
    hide Move; hide Accepts; hide IsItems;
    var inner, close := l[1..|l| - 1], l[|l| - 1];
    assert l + [last] == [l[0]] + (inner + ([close] + [last]));
    AtStart(before, l[0]);
    AcceptsStep(DeclState(Element1, before), l[0], inner + ([close] + [last]));
    ItemsStart(choice, items, inner);
    FirstInGroup(inner + ([close] + [last]));
    assert [] + [Unset] == [Unset];
    ItemsAccepted(choice, items, inner, [], Unset, close, [last]);
    EndAccepted([], last);
  }

  lemma {:induction false} SpecAccepted(before: seq<Connector>, spec: ContentSpec, l: seq<Lexeme>, last: Lexeme)
    requires spec.Legal() && IsContentSpec(spec, l) && last.tok == DeclClose
    ensures Accepts(DeclState(Element1, before), l + [last])
  {
    hide Move; hide Accepts; hide IsGroup; hide IsMixedRest;
    match spec
    case EmptySpec =>
      AtStart(before, l[0]);
      EndAccepted(before, last);
      AcceptsStep(DeclState(Element1, before), l[0], [last]);
    case AnySpec =>
      AtStart(before, l[0]);
      EndAccepted(before, last);
      AcceptsStep(DeclState(Element1, before), l[0], [last]);
    case Mixed(names, starred) =>
      assert l + [last] == [l[0]] + ([l[1]] + (l[2..] + [last]));
      AtStart(before, l[0]);
      AtStart(before, l[1]);
      AcceptsStep(DeclState(Element1, before), l[0], [l[1]] + (l[2..] + [last]));
      AcceptsStep(DeclState(Element2, [Unset]), l[1], l[2..] + [last]);
      MixedAccepted(names, starred, Element3, l[2..], [last]);
      EndAccepted([Unset], last);
    case Children(choice, items, occ) => ChildrenAccepted(before, choice, items, occ, l, last);
  }

  // ---- Soundness: what is accepted has a content specification ----

  predicate Spaceless(l: seq<Lexeme>) { forall i :: 0 <= i < |l| ==> l[i].tok != PrologS }

  lemma {:induction false} FirstStep(st: DeclState, l: seq<Lexeme>)
    requires st.Valid() && Accepts(st, l) && st.handler != InternalSubset
    ensures l != [] && Move(st, l[0]).Some? && Accepts(Move(st, l[0]).value, l[1..])
  {
    hide Move;
  }

  function OccurrenceOf(tok: Token): Occurrence
  {
    if tok == CloseParenQuestion || tok == NameQuestion then Optional
    else if tok == CloseParenAsterisk || tok == NameAsterisk then Repeated
    else if tok == CloseParenPlus || tok == NamePlus then AtLeastOnce
    else Once
  }

  lemma {:induction false} OccurrenceTok(tok: Token)
    ensures IsName(tok) ==> NameTok(OccurrenceOf(tok)) == tok
    ensures IsClose(tok) ==> CloseTok(OccurrenceOf(tok)) == tok
  {
  }

  /** Where a particle is expected, one is found. */
  lemma {:induction false} ParticleFound(open: seq<Connector>, l: seq<Lexeme>) returns (p: Particle, n: nat)
    requires open != [] && Spaceless(l) && Accepts(DeclState(Element6, open), l)
    ensures 0 < n <= |l| && IsParticle(p, l[..n]) && Accepts(DeclState(Element7, open), l[n..])
    decreases |l|, 1
  {
    hide Move; hide Accepts; hide IsItems;
    FirstStep(DeclState(Element6, open), l);
    Expected(open, l[0]);
    if l[0].tok == OpenParen {
      var choice, items, k := ItemsFound(open, Unset, l[1..]);
      n := k + 1;
      p := Group(choice, items, OccurrenceOf(l[n - 1].tok));
      OccurrenceTok(l[n - 1].tok);
      assert l[..n][1..n - 1] == l[1..][..k - 1] && l[1..][k..] == l[n..];
    } else {
      n := 1;
      OccurrenceTok(l[0].tok);
      p := Leaf(l[0].text, OccurrenceOf(l[0].tok));
    }
  }

  /** Behind "(" or a separator: the rest of the group, and the token that closes it. */
  lemma {:induction false} ItemsFound(open: seq<Connector>, c: Connector, l: seq<Lexeme>) returns (choice: bool, items: Items, n: nat)
    requires Spaceless(l) && Accepts(DeclState(Element6, open + [c]), l)
    ensures 0 < n <= |l| && IsClose(l[n - 1].tok) && IsItems(choice, items, l[..n - 1])
    ensures Fits(c, choice) && Accepts(AfterGroup(open), l[n..])
    decreases |l|, 2
  {
    hide Move; hide Accepts; hide IsParticle; hide IsItems;
    var p, k := ParticleFound(open + [c], l);
    FirstStep(DeclState(Element7, open + [c]), l[k..]);
    Seen(open, c, l[k]);
    assert l[k..][0] == l[k] && l[k..][1..] == l[k + 1..];
    if IsClose(l[k].tok) {
      choice, items, n := c == Bar, One(p), k + 1;
      OneItem(choice, p, l[..k]);
    } else {
      var rest, m;
      choice, rest, m := ItemsFound(open, if l[k].tok == Or then Bar else CommaSign, l[k + 1..]);
      items, n := Several(p, rest), k + 1 + m;
      ItemsJoined(choice, p, rest, l, k, m);
    }
  }

  lemma {:induction false} OneItem(choice: bool, p: Particle, l: seq<Lexeme>)
    requires IsParticle(p, l)
    ensures IsItems(choice, One(p), l)
  {
    hide IsParticle;
  }

  lemma {:induction false} ItemsJoined(choice: bool, p: Particle, rest: Items, l: seq<Lexeme>, k: nat, m: nat)
    requires k + 1 + m <= |l| && 0 < m && IsParticle(p, l[..k]) && l[k].tok == Separator(choice) && IsItems(choice, rest, l[k + 1..][..m - 1])
    ensures IsItems(choice, Several(p, rest), l[..k + m]) && l[k + 1..][m..] == l[k + 1 + m..] && l[k + 1..][m - 1] == l[k + m]
  {
    hide IsParticle;
    var body := l[..k + m];
    assert body[..k] == l[..k] && body[k + 1..] == l[k + 1..][..m - 1] && body[k].tok == Separator(choice);
  }

  lemma {:induction false} MixedFound(h: Handler, l: seq<Lexeme>) returns (names: seq<string>, starred: bool, n: nat)
    requires Spaceless(l) && (h == Element3 || h == Element5) && Accepts(DeclState(h, [Unset]), l)
    ensures n <= |l| && IsMixedRest(names, starred, l[..n]) && (names != [] || h == Element5 ==> starred)
    ensures Accepts(DeclState(DeclCloseHandler, [Unset]), l[n..])
    decreases |l|
  {
    hide Move; hide Accepts;
    FirstStep(DeclState(h, [Unset]), l);
    InMixed(l[0]);
    if l[0].tok == Or {
      FirstStep(DeclState(Element4, [Unset]), l[1..]);
      InMixed(l[1]);
      assert l[1..][1..] == l[2..];
      var names', n';
      names', starred, n' := MixedFound(Element5, l[2..]);
      names, n := [l[1].text] + names', n' + 2;
      assert l[..n][2..] == l[2..][..n'] && l[2..][n'..] == l[n..];
    } else {
      names, starred, n := [], l[0].tok == CloseParenAsterisk, 1;
    }
  }

  lemma {:induction false} NothingBehind(open: seq<Connector>, l: seq<Lexeme>)
    requires Accepts(DeclState(InternalSubset, open), l)
    ensures l == []
  {
    hide Move;
    if l != [] { AtEnd(open, l[0]); }
  }

  lemma {:induction false} CloseFound(open: seq<Connector>, l: seq<Lexeme>)
    requires Spaceless(l) && Accepts(DeclState(DeclCloseHandler, open), l)
    ensures |l| == 1 && l[0].tok == DeclClose
  {
    hide Move; hide Accepts;
    FirstStep(DeclState(DeclCloseHandler, open), l);
    AtEnd(open, l[0]);
    NothingBehind(open, l[1..]);
  }

  lemma {:induction false} GroupFound(l: seq<Lexeme>) returns (spec: ContentSpec)
    requires Spaceless(l) && l != [] && l[0].tok == OpenParen && Accepts(DeclState(Element6, [Unset]), l[1..])
    ensures l[|l| - 1].tok == DeclClose && spec.Legal() && IsContentSpec(spec, l[..|l| - 1])
  {
    hide Move; hide Accepts; hide IsItems;
    assert [] + [Unset] == [Unset];
    var choice, items, n := ItemsFound([], Unset, l[1..]);
    assert l[1..][n..] == l[n + 1..];
    CloseFound([], l[n + 1..]);
    OccurrenceTok(l[n].tok);
    spec := Children(choice, items, OccurrenceOf(l[n].tok));
    assert l[..|l| - 1][1..n] == l[1..][..n - 1];
  }

  lemma {:induction false} MixedSpecFound(l: seq<Lexeme>) returns (spec: ContentSpec)
    requires Spaceless(l) && |l| > 1 && l[0].tok == OpenParen && l[1] == Lexeme(PoundName, "#PCDATA") && Accepts(DeclState(Element3, [Unset]), l[2..])
    ensures l[|l| - 1].tok == DeclClose && spec.Legal() && IsContentSpec(spec, l[..|l| - 1])
  {
    hide Move; hide Accepts; hide IsMixedRest;
    var names, starred, n := MixedFound(Element3, l[2..]);
    assert l[2..][n..] == l[n + 2..];
    CloseFound([Unset], l[n + 2..]);
    spec := Mixed(names, starred);
    assert l[..|l| - 1][2..] == l[2..][..n];
  }

  lemma {:induction false} SpecFound(before: seq<Connector>, l: seq<Lexeme>) returns (spec: ContentSpec)
    requires Spaceless(l) && Accepts(DeclState(Element1, before), l)
    ensures l != [] && l[|l| - 1].tok == DeclClose && spec.Legal() && IsContentSpec(spec, l[..|l| - 1])
  {
    hide Move; hide Accepts; hide IsGroup; hide IsMixedRest;
    FirstStep(DeclState(Element1, before), l);
    AtStart(before, l[0]);
    if l[0].tok == Name {
      CloseFound(before, l[1..]);
      spec := if l[0].text == "EMPTY" then EmptySpec else AnySpec;
    } else {
      FirstStep(DeclState(Element2, [Unset]), l[1..]);
      AtStart(before, l[1]);
      Expected([Unset], l[1]);
      assert l[1..][1..] == l[2..];
      if l[1].tok == PoundName {
        spec := MixedSpecFound(l);
      } else {
        FirstInGroup(l[1..]);
        spec := GroupFound(l);
      }
    }
  }

  // ---- White space ----

  function NoSpace(l: seq<Lexeme>): (r: seq<Lexeme>)
    ensures Spaceless(r)
  {
    if l == [] then [] else (if l[0].tok == PrologS then [] else [l[0]]) + NoSpace(l[1..])
  }

  lemma {:induction false} SpaceStays(st: DeclState, t: Lexeme)
    requires st.Valid() && st.handler != InternalSubset && st.handler != ErrorHandler && t.tok == PrologS
    ensures Move(st, t) == Some(st)
  {
  }

  lemma {:induction false} SpaceIgnored(st: DeclState, l: seq<Lexeme>)
    requires st.Valid() && st.handler != InternalSubset && st.handler != ErrorHandler
    requires forall i :: 0 <= i < |l| && l[i].tok == DeclClose ==> i == |l| - 1
    ensures Accepts(st, l) == Accepts(st, NoSpace(l))
    decreases |l|
  {
    hide Move; hide Accepts;
    if l != [] {
      AcceptsStep(st, l[0], l[1..]);
      assert l == [l[0]] + l[1..];
      if l[0].tok == PrologS {
        SpaceStays(st, l[0]);
        assert [] + NoSpace(l[1..]) == NoSpace(l[1..]);
        SpaceIgnored(st, l[1..]);
      } else {
        AcceptsStep(st, l[0], NoSpace(l[1..]));
        if Move(st, l[0]).Some? {
          OnlyAtTheEnd(st, l[0]);
          if l[0].tok != DeclClose { SpaceIgnored(Move(st, l[0]).value, l[1..]); }
        }
      }
    }
  }

  /** Up to the token that ends the declaration, white space aside, the automaton with its connectors accepts exactly the
      content specifications of XML 1.0, whatever connectors earlier declarations left behind. */
  lemma {:induction false} AcceptsExactlyContentSpecs(before: seq<Connector>, l: seq<Lexeme>, last: Lexeme)
    requires last.tok == DeclClose && forall i :: 0 <= i < |l| ==> l[i].tok != DeclClose
    ensures Accepts(DeclState(Element1, before), l + [last]) <==> exists spec: ContentSpec :: spec.Legal() && IsContentSpec(spec, NoSpace(l))
  {
    hide Move; hide Accepts; hide IsContentSpec; hide NoSpace;
    var d := NoSpace(l);
    assert NoSpace(l + [last]) == d + [last] by { NoSpaceLast(l, last); }
    SpaceIgnored(DeclState(Element1, before), l + [last]);
    if spec: ContentSpec :| spec.Legal() && IsContentSpec(spec, d) {
      SpecAccepted(before, spec, d, last);
    }
    if Accepts(DeclState(Element1, before), d + [last]) {
      var spec := SpecFound(before, d + [last]);
      assert (d + [last])[..|d|] == d;
    }
  }

  lemma {:induction false} NoSpaceLast(l: seq<Lexeme>, last: Lexeme)
    requires last.tok != PrologS
    ensures NoSpace(l + [last]) == NoSpace(l) + [last]
    decreases |l|
  {
    if l != [] {
      assert (l + [last])[1..] == l[1..] + [last];
      NoSpaceLast(l[1..], last);
    } else {
      assert [last][1..] == [];
    }
  }

  // ---- The parser's fields ----

  const INIT_GROUP_SIZE := 32

  /** What prologProcessor returns for a token of role XML_ROLE_ERROR. */
  function RefusedAs(tok: Token): Error
  {
    if tok == ParamEntityRef then ParamEntityReference else if tok == XmlDecl then MisplacedXmlPi else Syntax
  }

  class Declarations {
    var handler: Handler
    var level: nat
    var groupConnector: array<Connector>
    var groupSize: nat

    ghost predicate Valid()
      reads this
    {
      && groupConnector.Length == groupSize && (level == 0 || level < groupSize)
      && (handler == Element2 ==> level == 1) && (handler == Element6 || handler == Element7 ==> level > 0)
    }

    /** The handler, and the connectors of the open groups; the connector of a group is kept at its level. */
    ghost function Abstract(): (st: DeclState)
      requires Valid()
      reads this, groupConnector
      ensures st.Valid() && |st.open| == level
    {
      DeclState(handler, if level == 0 then [] else groupConnector[1..level + 1])
    }

    constructor ()
      ensures Valid() && fresh(groupConnector) && Abstract() == DeclState(Element0, [])
    {
      handler, level, groupSize := Element0, 0, 0;
      groupConnector := new Connector[0];
    }

    /** syntaxError. */
    method SyntaxErrorRole() returns (role: Role)
      modifies `handler
      ensures handler == ErrorHandler && role == RoleError
    {
      handler := ErrorHandler;
      return RoleError;
    }

    /** element0. */
    method AtElement0(t: Lexeme) returns (role: Role)
      requires handler == Element0
      modifies `handler, `level
      ensures Reaction(handler, level, role) == React(old(handler), old(level), t)
    {
      match t.tok {
        case PrologS => return RoleNone;
        case Name =>
          handler := Element1;
          return RoleElementName;
        case _ =>
      }
      role := SyntaxErrorRole();
    }

    /** element1. */
    method AtElement1(t: Lexeme) returns (role: Role)
      requires handler == Element1
      modifies `handler, `level
      ensures Reaction(handler, level, role) == React(old(handler), old(level), t)
    {
      match t.tok {
        case PrologS => return RoleNone;
        case Name =>
          if t.text == "EMPTY" {
            handler := DeclCloseHandler;
            return RoleContentEmpty;
          }
          if t.text == "ANY" {
            handler := DeclCloseHandler;
            return RoleContentAny;
          }
        case OpenParen =>
          handler := Element2;
          level := 1;
          return RoleGroupOpen;
        case _ =>
      }
      role := SyntaxErrorRole();
    }

    /** element2. */
    method AtElement2(t: Lexeme) returns (role: Role)
      requires handler == Element2
      modifies `handler, `level
      ensures Reaction(handler, level, role) == React(old(handler), old(level), t)
    {
      match t.tok {
        case PrologS => return RoleNone;
        case PoundName =>
          if t.text == "#PCDATA" {
            handler := Element3;
            return RoleContentPcdata;
          }
        case OpenParen =>
          level := 2;
          handler := Element6;
          return RoleGroupOpen;
        case Name =>
          handler := Element7;
          return RoleContentElement(Once);
        case NameQuestion =>
          handler := Element7;
          return RoleContentElement(Optional);
        case NameAsterisk =>
          handler := Element7;
          return RoleContentElement(Repeated);
        case NamePlus =>
          handler := Element7;
          return RoleContentElement(AtLeastOnce);
        case _ =>
      }
      role := SyntaxErrorRole();
    }

    /** element3. */
    method AtElement3(t: Lexeme) returns (role: Role)
      requires handler == Element3
      modifies `handler, `level
      ensures Reaction(handler, level, role) == React(old(handler), old(level), t)
    {
      match t.tok {
        case PrologS => return RoleNone;
        case CloseParen =>
          handler := DeclCloseHandler;
          return RoleGroupClose(Repeated);
        case CloseParenAsterisk =>
          handler := DeclCloseHandler;
          return RoleGroupClose(Repeated);
        case Or =>
          handler := Element4;
          return RoleNone;
        case _ =>
      }
      role := SyntaxErrorRole();
    }

    /** element4. */
    method AtElement4(t: Lexeme) returns (role: Role)
      requires handler == Element4
      modifies `handler, `level
      ensures Reaction(handler, level, role) == React(old(handler), old(level), t)
    {
      match t.tok {
        case PrologS => return RoleNone;
        case Name =>
          handler := Element5;
          return RoleContentElement(Once);
        case _ =>
      }
      role := SyntaxErrorRole();
    }

    /** element5. */
    method AtElement5(t: Lexeme) returns (role: Role)
      requires handler == Element5
      modifies `handler, `level
      ensures Reaction(handler, level, role) == React(old(handler), old(level), t)
    {
      match t.tok {
        case PrologS => return RoleNone;
        case CloseParenAsterisk =>
          handler := DeclCloseHandler;
          return RoleGroupClose(Repeated);
        case Or =>
          handler := Element4;
          return RoleNone;
        case _ =>
      }
      role := SyntaxErrorRole();
    }

    /** element6. */
    method AtElement6(t: Lexeme) returns (role: Role)
      requires handler == Element6
      modifies `handler, `level
      ensures Reaction(handler, level, role) == React(old(handler), old(level), t)
    {
      match t.tok {
        case PrologS => return RoleNone;
        case OpenParen =>
          level := level + 1;
          return RoleGroupOpen;
        case Name =>
          handler := Element7;
          return RoleContentElement(Once);
        case NameQuestion =>
          handler := Element7;
          return RoleContentElement(Optional);
        case NameAsterisk =>
          handler := Element7;
          return RoleContentElement(Repeated);
        case NamePlus =>
          handler := Element7;
          return RoleContentElement(AtLeastOnce);
        case _ =>
      }
      role := SyntaxErrorRole();
    }

    /** element7. */
    method AtElement7(t: Lexeme) returns (role: Role)
      requires handler == Element7 && level > 0
      modifies `handler, `level
      ensures Reaction(handler, level, role) == React(old(handler), old(level), t)
    {
      match t.tok {
        case PrologS => return RoleNone;
        case CloseParen =>
          level := level - 1;
          if level == 0 { handler := DeclCloseHandler; }
          return RoleGroupClose(Once);
        case CloseParenAsterisk =>
          level := level - 1;
          if level == 0 { handler := DeclCloseHandler; }
          return RoleGroupClose(Repeated);
        case CloseParenQuestion =>
          level := level - 1;
          if level == 0 { handler := DeclCloseHandler; }
          return RoleGroupClose(Optional);
        case CloseParenPlus =>
          level := level - 1;
          if level == 0 { handler := DeclCloseHandler; }
          return RoleGroupClose(AtLeastOnce);
        case Comma =>
          handler := Element6;
          return RoleGroupSequence;
        case Or =>
          handler := Element6;
          return RoleGroupChoice;
        case _ =>
      }
      role := SyntaxErrorRole();
    }

    /** declClose. */
    method AtDeclClose(t: Lexeme) returns (role: Role)
      requires handler == DeclCloseHandler
      modifies `handler, `level
      ensures Reaction(handler, level, role) == React(old(handler), old(level), t)
    {
      match t.tok {
        case PrologS => return RoleNone;
        case DeclClose =>
          handler := InternalSubset;
          return RoleNone;
        case _ =>
      }
      role := SyntaxErrorRole();
    }

    /** XmlTokenRole, from a declaration's first token to the one behind it: a call of the handler. */
    method TokenRole(t: Lexeme) returns (role: Role)
      requires handler == Element7 ==> level > 0
      modifies `handler, `level
      ensures Reaction(handler, level, role) == React(old(handler), old(level), t)
    {
      match handler {
        case Element0 => role := AtElement0(t);
        case Element1 => role := AtElement1(t);
        case Element2 => role := AtElement2(t);
        case Element3 => role := AtElement3(t);
        case Element4 => role := AtElement4(t);
        case Element5 => role := AtElement5(t);
        case Element6 => role := AtElement6(t);
        case Element7 => role := AtElement7(t);
        case DeclCloseHandler => role := AtDeclClose(t);
        case InternalSubset => role := SyntaxErrorRole();
        case ErrorHandler => role := RoleNone;
      }
    }

    /** The case of prologProcessor for the start of a group. */
    method OpenGroup()
      requires groupConnector.Length == groupSize && 0 < level <= groupSize + 2 && (groupSize > 0 ==> level <= groupSize)
      modifies `groupConnector, `groupSize, groupConnector
      ensures groupConnector.Length == groupSize && level < groupSize
      ensures groupConnector == old(groupConnector) || fresh(groupConnector)
      ensures level <= old(groupSize) ==> groupConnector[..level] == old(groupConnector[..level])
      ensures groupConnector[level] == Unset
    {
      if level >= groupSize {
        var size := if groupSize > 0 then 2 * groupSize else INIT_GROUP_SIZE;
        var a := new Connector[size];
        forall i | 0 <= i < groupSize { a[i] := groupConnector[i]; }
        groupConnector, groupSize := a, size;
      }
      groupConnector[level] := Unset;
    }

    /** The cases for "," and "|": a group keeps to one of them. */
    method Connect(c: Connector) returns (err: Option<Error>)
      requires c != Unset && 0 < level < groupConnector.Length
      modifies groupConnector
      ensures var last := old(groupConnector[level]);
              if last != Unset && last != c then err == Some(Syntax)
              else err == None && groupConnector[..] == old(groupConnector[..][level := c])
    {
      if groupConnector[level] != Unset && groupConnector[level] != c { return Some(Syntax); }
      groupConnector[level] := c;
      return None;
    }

    /** One turn of the loop of prologProcessor inside an element type declaration. */
    method Token(t: Lexeme) returns (err: Option<Error>)
      requires Valid()
      modifies this, groupConnector
      ensures groupConnector == old(groupConnector) || fresh(groupConnector)
      ensures match Move(old(Abstract()), t)
              case None => err == Some(if React(old(handler), old(level), t).role == RoleError then RefusedAs(t.tok) else Syntax)
              case Some(st) => err == None && Valid() && Abstract() == st
    {
      hide React;
      ghost var st := Abstract();
      ReactBounds(handler, level, t);
      var role := TokenRole(t);
      match role {
        case RoleError => return Some(RefusedAs(t.tok));
        case RoleGroupOpen => OpenGroup();
        case RoleGroupSequence => err := Connect(CommaSign); return err;
        case RoleGroupChoice => err := Connect(Bar); return err;
        case _ =>
      }
      return None;
    }

    /** The tokens of a declaration, up to the first error. */
    method Declare(l: seq<Lexeme>) returns (err: Option<Error>)
      requires Valid()
      modifies this, groupConnector
      ensures match Run(old(Abstract()), l)
              case None => err.Some?
              case Some(st) => err == None && Valid() && Abstract() == st
    {
      hide Move;
      var i := 0;
      assert l[0..] == l;
      while i < |l|
        invariant i <= |l| && Valid() && (groupConnector == old(groupConnector) || fresh(groupConnector))
        invariant Run(old(Abstract()), l) == Run(Abstract(), l[i..])
      {
        assert l[i..][0] == l[i] && l[i..][1..] == l[i + 1..];
        err := Token(l[i]);
        if err.Some? { return err; }
        i := i + 1;
      }
      return None;
    }
  }

  /** How far one token moves the level. */
  lemma {:induction false} ReactBounds(h: Handler, level: nat, t: Lexeme)
    requires (h == Element2 ==> level == 1) && (h == Element6 || h == Element7 ==> level > 0)
    ensures var r := React(h, level, t);
            && (r.role == RoleGroupOpen ==> (h == Element1 && r.level == 1 && r.handler == Element2) || (h != Element1 && r.level == level + 1 && r.handler == Element6))
            && (r.role == RoleGroupSequence || r.role == RoleGroupChoice ==> r.level == level > 0 && h == Element7 && r.handler == Element6)
            && (r.role.RoleGroupClose? ==> if h == Element7 then r.level == level - 1 else r.level == level)
            && (r.role.RoleGroupClose? && r.level == 0 ==> r.handler == DeclCloseHandler)
            && (!r.role.RoleGroupOpen? && !r.role.RoleGroupClose? ==> r.level == level)
            && (!r.role.RoleGroupOpen? && !r.role.RoleError? && r.handler == Element2 ==> h == Element2)
            && (!r.role.RoleError? && (r.handler == Element6 || r.handler == Element7) ==> r.level > 0)
  {
    hide React;
    GroupBounds(h, level, t);
    LevelBounds(h, level, t);
  }

  lemma {:induction false} GroupBounds(h: Handler, level: nat, t: Lexeme)
    requires (h == Element2 ==> level == 1) && (h == Element6 || h == Element7 ==> level > 0)
    ensures var r := React(h, level, t);
            && (r.role == RoleGroupOpen ==> (h == Element1 && r.level == 1 && r.handler == Element2) || (h != Element1 && r.level == level + 1 && r.handler == Element6))
            && (r.role == RoleGroupSequence || r.role == RoleGroupChoice ==> r.level == level > 0 && h == Element7 && r.handler == Element6)
  {
  }

  lemma {:induction false} LevelBounds(h: Handler, level: nat, t: Lexeme)
    requires (h == Element2 ==> level == 1) && (h == Element6 || h == Element7 ==> level > 0)
    ensures var r := React(h, level, t);
            && (r.role.RoleGroupClose? ==> if h == Element7 then r.level == level - 1 else r.level == level)
            && (r.role.RoleGroupClose? && r.level == 0 ==> r.handler == DeclCloseHandler)
            && (!r.role.RoleGroupOpen? && !r.role.RoleGroupClose? ==> r.level == level)
            && (!r.role.RoleGroupOpen? && !r.role.RoleError? && r.handler == Element2 ==> h == Element2)
            && (!r.role.RoleError? && (r.handler == Element6 || r.handler == Element7) ==> r.level > 0)
  {
  }
}
