/**
 Declared values of attributes (section 3.3.2 of XML 1.0): which attributes
 storeAtts of libjabber/xmlparse.c reports that the tag does not have.
 */
module XmlDefaults {
  import opened XmlValue
  import opened XmlTree
  import opened XmlPool
  import opened XmlPrinted
  import opened XmlRoundTrip

  function ValueIn(atts: seq<(string, string)>, name: string): Option<string>
  {
    if atts == [] then None else if atts[0].0 == name then Some(atts[0].1) else ValueIn(atts[1..], name)
  }

  /** The value of the first declaration of the attribute that has one. */
  function FirstGiven(defaults: seq<DefaultAtt>, name: string): Option<string>
  {
    if defaults == [] then None
    else if defaults[0].name == name && defaults[0].hasValue then Some(defaults[0].value)
    else FirstGiven(defaults[1..], name)
  }

  lemma {:induction false} ValueHas(atts: seq<(string, string)>, name: string)
    ensures ValueIn(atts, name).Some? <==> Has(atts, name)
    decreases |atts|
  {
    if atts != [] {
      ValueHas(atts[1..], name);
      if Has(atts, name) && atts[0].0 != name {
        var i :| 0 <= i < |atts| && atts[i].0 == name;
        assert atts[1..][i - 1].0 == name;
      }
      if Has(atts[1..], name) {
        var i :| 0 <= i < |atts[1..]| && atts[1..][i].0 == name;
        assert atts[i + 1].0 == name;
      }
      if atts[0].0 == name { assert Has(atts, name); }
    }
  }

  lemma {:induction false} ValueBehind(atts: seq<(string, string)>, att: (string, string), name: string)
    ensures ValueIn(atts + [att], name) == if ValueIn(atts, name).Some? then ValueIn(atts, name) else if att.0 == name then Some(att.1) else None
    decreases |atts|
  {
    if atts == [] {
      assert atts + [att] == [att] && [att][1..] == [];
    } else {
      assert (atts + [att])[0] == atts[0] && (atts + [att])[1..] == atts[1..] + [att];
      ValueBehind(atts[1..], att, name);
    }
  }

  /** Behind the specified attributes come, once each, those that have a declared value and were not specified. */
  lemma {:induction false} DefaultsAdded(defaults: seq<DefaultAtt>, atts: seq<(string, string)>)
    requires Unique(atts)
    ensures var all := AddDefaults(defaults, atts);
            && atts <= all && Unique(all)
            && forall name :: ValueIn(all, name) == if ValueIn(atts, name).Some? then ValueIn(atts, name) else FirstGiven(defaults, name)
    decreases |defaults|
  {
    hide Unique; hide Has;
    if defaults != [] {
      var d := defaults[0];
      var more := if !Has(atts, d.name) && d.hasValue then atts + [(d.name, d.value)] else atts;
      if more != atts { OneMore(atts, (d.name, d.value)); }
      DefaultsAdded(defaults[1..], more);
      var all := AddDefaults(defaults, atts);
      forall name ensures ValueIn(all, name) == if ValueIn(atts, name).Some? then ValueIn(atts, name) else FirstGiven(defaults, name) {
        ValueHas(atts, d.name);
        ValueBehind(atts, (d.name, d.value), name);
      }
    }
  }

  lemma {:induction false} OneMore(atts: seq<(string, string)>, att: (string, string))
    requires Unique(atts) && !Has(atts, att.0)
    ensures Unique(atts + [att])
  {
  }

  lemma {:induction false} NormalNames(defaults: seq<DefaultAtt>, atts: seq<(string, string)>, name: string)
    requires Unique(atts)
    ensures Unique(NormalAtts(defaults, atts))
    ensures ValueIn(NormalAtts(defaults, atts), name) ==
            match ValueIn(atts, name) case None => None case Some(v) => Some(Typed(IsCdata(defaults, name), Blanks(v)))
    decreases |atts|
  {
    hide Typed; hide Blanks; hide IsCdata;
    UniqueNames(atts, NormalAtts(defaults, atts));
    if atts != [] {
      NormalAttsFirst(defaults, atts);
      assert Unique(atts[1..]) by { forall i, j | 0 <= i < j < |atts[1..]| ensures atts[1..][i].0 != atts[1..][j].0 { assert atts[i + 1].0 != atts[j + 1].0; } }
      NormalNames(defaults, atts[1..], name);
      assert NormalAtts(defaults, atts)[1..] == NormalAtts(defaults, atts[1..]);
    }
  }

  /** What is reported for a tag of an element: no name twice; what was specified, as its type has it; and otherwise the first
      declared value. */
  lemma {:induction false} SuppliedAre(dtd: Dtd, element: string, atts: seq<(string, string)>)
    requires Unique(atts)
    ensures Unique(Supplied(dtd, element, atts))
    ensures forall name ::
              ValueIn(Supplied(dtd, element, atts), name) ==
              match ValueIn(atts, name)
              case Some(v) => Some(Typed(IsCdata(Defaults(dtd, element), name), Blanks(v)))
              case None => FirstGiven(Defaults(dtd, element), name)
  {
    hide Typed; hide Blanks; hide IsCdata; hide Unique; hide AddDefaults; hide NormalAtts;
    var defaults := Defaults(dtd, element);
    NormalNames(defaults, atts, "");
    DefaultsAdded(defaults, NormalAtts(defaults, atts));
    forall name
      ensures ValueIn(Supplied(dtd, element, atts), name) ==
              match ValueIn(atts, name) case Some(v) => Some(Typed(IsCdata(defaults, name), Blanks(v))) case None => FirstGiven(defaults, name)
    {
      NormalNames(defaults, atts, name);
    }
  }

  // ---- The first declaration ----

  function FirstDeclared(defaults: seq<DefaultAtt>, name: string): Option<DefaultAtt>
  {
    if defaults == [] then None else if defaults[0].name == name then Some(defaults[0]) else FirstDeclared(defaults[1..], name)
  }

  /** What section 3.3 of XML 1.0 wants: the value of the first declaration, and none if that has none. */
  function Binding(defaults: seq<DefaultAtt>, name: string): Option<string>
  {
    match FirstDeclared(defaults, name) case None => None case Some(d) => if d.hasValue then Some(d.value) else None
  }

  predicate LaterValue(defaults: seq<DefaultAtt>, name: string)
  {
    exists i :: 0 <= i < |defaults| && defaults[i].name == name && defaults[i].hasValue
  }

  lemma {:induction false} GivenIf(defaults: seq<DefaultAtt>, name: string)
    ensures FirstGiven(defaults, name).Some? <==> LaterValue(defaults, name)
    decreases |defaults|
  {
    if defaults != [] {
      GivenIf(defaults[1..], name);
      if LaterValue(defaults[1..], name) {
        var i :| 0 <= i < |defaults[1..]| && defaults[1..][i].name == name && defaults[1..][i].hasValue;
        assert defaults[i + 1].name == name && defaults[i + 1].hasValue;
      }
      if LaterValue(defaults, name) && !(defaults[0].name == name && defaults[0].hasValue) {
        var i :| 0 <= i < |defaults| && defaults[i].name == name && defaults[i].hasValue;
        assert defaults[1..][i - 1].name == name && defaults[1..][i - 1].hasValue;
      }
      if defaults[0].name == name && defaults[0].hasValue { assert LaterValue(defaults, name); }
    }
  }

  /** It is kept, unless the first declaration has no value and a later one does. */
  lemma {:induction false} FirstBindsIff(defaults: seq<DefaultAtt>, name: string)
    ensures FirstGiven(defaults, name) == Binding(defaults, name) <==>
            (match FirstDeclared(defaults, name) case None => true case Some(d) => d.hasValue || !LaterValue(defaults, name))
  {
    hide LaterValue;
    GivenIf(defaults, name);
    FirstWithValue(defaults, name);
  }

  lemma {:induction false} FirstWithValue(defaults: seq<DefaultAtt>, name: string)
    ensures var d := FirstDeclared(defaults, name);
            && (d == None ==> FirstGiven(defaults, name) == None)
            && (d.Some? && d.value.hasValue ==> FirstGiven(defaults, name) == Some(d.value.value))
    decreases |defaults|
  {
    if defaults != [] && defaults[0].name != name { FirstWithValue(defaults[1..], name); }
  }

  /** The type of an attribute is that of its first declaration, and CDATA if there is none. */
  lemma {:induction false} FirstType(defaults: seq<DefaultAtt>, name: string)
    ensures IsCdata(defaults, name) <==> (match FirstDeclared(defaults, name) case None => true case Some(d) => d.isCdata)
    decreases |defaults|
  {
    if defaults != [] && defaults[0].name != name { FirstType(defaults[1..], name); }
  }
}
