/**
 The main laws for the parser of the program, whose prolog is that of XmlProlog.
 Only the XML declaration is left open: what it says is a parameter.
 */
module XmlDocuments {
  import opened XmlScan
  import opened XmlValue
  import opened XmlContent
  import opened XmlChunks
  import opened XmlNesting
  import opened XmlTree
  import opened XmlPrinted
  import opened XmlRoundTrip
  import opened XmlBuilt
  import opened XmlProlog

  function ParseOf(r: Reader, dtd: Dtd, chunks: seq<string>, last: string): Result
  {
    XmlChunks.Parse(ReaderEnv(r), PrologPhase, Initial(dtd), [], "", chunks, last)
  }

  /** Any document, with or without a DTD, well-formed or not, parses alike in whatever chunks it comes. */
  lemma {:induction false} AnyChunks(r: Reader, dtd: Dtd, chunks: seq<string>, last: string, chunks': seq<string>, last': string)
    requires Concat(chunks) + last == Concat(chunks') + last'
    ensures Same(ParseOf(r, dtd, chunks, last), ParseOf(r, dtd, chunks', last'))
  {
    ReaderLaws(r);
    ChunkIndependence(ReaderEnv(r), Initial(dtd), chunks, last, chunks', last');
  }

  /** When it parses, the events are one nested root, and building the tree and listing its events gives them back. */
  lemma {:induction false} AnyDocument(r: Reader, dtd: Dtd, chunks: seq<string>, last: string)
    ensures var e := ParseOf(r, dtd, chunks, last); var s := Build([], e.events);
            e.outcome.Stopped? ==>
              && Track(0, DocState([], false), e.events) == Some(DocState([], true))
              && |s| == 1 && EventsOf(Tree.Tag(s[0].name, s[0].atts, s[0].kids)) == e.events
  {
    hide XmlChunks.Parse; hide Build; hide Track;
    ReaderLaws(r);
    DocumentNested(ReaderEnv(r), Initial(dtd), chunks, last);
    DocumentBuilt(ReaderEnv(r), Initial(dtd), chunks, last);
  }

  /** What is printed for a tree is read again, as the same tree exactly when it is clean. */
  lemma {:induction false} AnyTree(r: Reader, dtd: Dtd, t: Tree, chunks: seq<string>, last: string)
    requires Utf8(r.enc) && dtd.elementAtts == map[]
    requires t.Tag? && Legal(r.enc, t) && Normal(t) && Concat(chunks) + last == Print(t)
    ensures ParseOf(r, dtd, chunks, last).outcome.Stopped?
    ensures Build([], ParseOf(r, dtd, chunks, last).events) == [Frame(t.name, t.atts, t.kids)] <==> Clean(t)
  {
    hide XmlChunks.Parse; hide Build; hide Print; hide EventsOf; hide Legal; hide Normal; hide RoleLaws; hide Restored; hide Clean;
    ReaderLaws(r);
    assert StartsPlainly(ReaderEnv(r), Initial(dtd)) by {
      assert Turn(r, Initial(dtd), InstanceStart, "") == StartInstance(Initial(dtd));
    }
    PrintedParsed(ReaderEnv(r), Initial(dtd), t, chunks, last);
    RoundTrip(ReaderEnv(r), Initial(dtd), t, chunks, last);
  }
}
