# The XML engine and the tree of CenterIM's libjabber, verified

The repository is a multi-protocol messenger. Its Jabber code carries an XML
engine of its own, an early expat, and a tree of nodes on top of it
(`libjabber/`). These Dafny files model that engine from bytes to trees and
back, the containers under it, Jabber IDs, and the two SHA-1 programs that
ship together, and prove what they are for:

* **Reading in pieces.** Bytes come from a socket in chunks of any size. A
  scanner answers "token", "not allowed" or "more bytes needed"; the parser
  rescans what is left over. `XmlDocuments.AnyChunks`: for every input, how it
  is cut makes no difference to success, events and text.
* **Nesting.** Tags are matched on a stack, entities expand recursively.
  `XmlDocuments.AnyDocument`: whatever parses is one nested root, and the tree
  built from the events has those events.
* **What is reported.** `XmlReports.DocumentReported`: documents are written from
  their parts, and the events for the bytes are those XML 1.0 asks for, with
  entities expanded and declared values added. `XmlInstances` spells out the
  shortest of them. `XmlRefused.DocumentRefused`: a flaw anywhere in a document is
  a fatal error.
* **Printing and parsing back.** `XmlDocuments.AnyTree` and `XmlReparse.Reparse`:
  the printed text always parses, and the same tree comes back exactly if
  there was no CR in text and no tab, CR or LF in attribute values.
* **The DTD.** `XmlRole.AcceptsExactlyContentSpecs`: the role automaton and its
  array of connectors accept exactly the content specifications of XML 1.0;
  `XmlGrammar.PrologOnly`: nothing but a prolog is taken for one.
* **Fast paths.** The second scan of a start tag has no end pointer, the
  `normalized` mark skips normalization, and an array of records is
  overwritten by pointers in place: `XmlAtts`, `XmlNormal`, `XmlAppAtts`.
* **Namespace scopes, string pools, hash tables, digests, Jabber IDs**:
  `XmlBindings`, `XmlStringPool`, `HashTable`, `Sha` and `Sha1`, `Jid`.

Three things turned out otherwise than one would like, and are stated with the
exact condition: the first declaration of an attribute does not bind if it has
no value and a later one has (`XmlDefaults.FirstBindsIff`, with the document of
`XmlInstances.LaterReported`), an error while an empty element is read loses
the binding nodes on its local list (`XmlAbandoned.AbandonedConserves`), and
the mark `normalized` can be set where normalization would change the value
(`XmlNormal.PlainStored`). Also stated exactly are the printer walking into a
sibling (`XmlDomRead.WalkedIsPrinted`), copies that merge texts
(`XmlDomCopy.MergedSame`), a byte `strunescape` never writes
(`XmlStr.UnescapeDefined`), the copying of a node into itself, which does not
end (`XmlDomDepth.EndlessIff`), and the loop of `jid_append` that does not end
(`Jid.AppendEndsIff`).

## How it is modelled

* A byte is a `char` below 256. An encoding is a table of byte types with
  predicates on multi-byte characters, as in the C structure; all laws hold
  for every table, and those about what is written for the UTF-8 tables: that of
  documents and that of entity texts, in which a CR is white space. `XML_NS`
  is not defined in the build, so that `:` is a name start character.
* `XmlScan` describes the scanner as an automaton; the loops of the C functions
  are in `XmlTokImpl` and are proved equal to it. `XmlContent` describes the
  processors as functions of the bytes at hand; the class in `XmlParser`, which
  updates its buffer, tag stack and pool in place, is proved against them.
* The handlers are those of `libjabber/expat.c`: start, end, character data. The
  calls are listed as events, character data byte by byte, so that equal lists
  mean equal elements and equal concatenated text. After a failure only the
  error is compared: text reported before it may differ in length.
* Where in a document or an entity the content at hand stands (its table, the
  entities open around it, the level its tags start at) is a `Place` of `XmlChunks`.
  `XmlDeclarations.Declaration`, `XmlLiterals.Piece` and `XmlMeaning.Item` are what
  documents are written with. What they mean is defined piece by piece; for an
  entity in the value of an attribute, `XmlLiterals.TextMeans` says what it is.
* `XmlProlog` has all handlers of `libjabber/xmlrole.c` and the actions on the DTD.
  What an XML declaration says (`processXmlDecl`) is a parameter.
* Nodes of the tree, binding nodes and blocks of a string pool are positions in a
  table that allocation appends to, and pointers are such positions.
* Allocation succeeds. An `abort()` is the error `Aborted`.
* Lengths and counters are unbounded integers with the wrap-around of the C
  types written out where it matters (the 64-bit length of SHA-1, hashes).

`dafny verify dfyconfig.toml` checks everything.

## Model

| member | source | states |
|---|---|---|
| `XmlDocuments.AnyChunks` | libjabber/xmlparse.c:757-863 | Incremental parsing: any two ways of cutting the same bytes into XML_Parse calls give the same success or failure and, on success, the same element events, concatenated character data and state; for every input, with or without a DTD. No condition on the input. |
| `XmlDocuments.AnyDocument` | libjabber/xmlparse.c:1191-1360 | Whatever parses, in whatever chunks, has one properly nested, name-matched root with all text inside it; the tree the callbacks build from the events has exactly those events. |
| `XmlDocuments.AnyTree` | libjabber/xmlnode.c:128-204 | What is printed for a tree with legal names and characters, unique attributes and non-empty, non-adjacent text always parses, in whatever chunks, and gives the same tree if and only if there is no CR in its text and no tab, CR or LF in its values. |
| `XmlScan.ScanStable` | libjabber/xmltok_impl_c.h:113-899 | Prefix stability: once the scanner has a token or an invalid verdict, more bytes change neither the verdict nor its position, in every state and for every table of byte types. |
| `XmlTok.ContentTokGrows` | libjabber/xmltok_impl_c.h:805-899 | A content token is final when more bytes come; only a run of character data may change, and then into whatever tokenizing from its old end gives. |
| `XmlTok.MarkupGrows` | libjabber/xmltok_impl_c.h:706-803 | A complete token that starts with `<` or `&`, or an invalid verdict on one, is the same on every extension. |
| `XmlTok.DataRunResume` | libjabber/xmltok_impl_c.h:845-899 | A run of character data that is cut goes on from the cut to the same end or the same bad byte, `]]>` across the cut included. |
| `XmlTok.CdataTokGrows` | libjabber/xmltok_impl_c.h:326-401 | Inside a CDATA section, the data run on a prefix is a prefix of the run on the extension; every other token is final. |
| `XmlTok.PrologTokGrows` | libjabber/xmltok_impl_c.h:992-1217 | Prolog tokens are final, but for white space, which may grow. |
| `XmlTokImpl.ScanComment` | libjabber/xmltok_impl_c.h:116-151 | scanComment: the loop gives the verdict of the automaton, for every table and every input. |
| `XmlTokImpl.ScanDecl` | libjabber/xmltok_impl_c.h:154-198 | scanDecl gives the verdict of the automaton. |
| `XmlTokImpl.ScanPi` | libjabber/xmltok_impl_c.h:245-305 | scanPi, with the check of the target, gives the verdict of the automaton. |
| `XmlTokImpl.ScanCdataSection` | libjabber/xmltok_impl_c.h:308-323 | scanCdataSection gives the verdict of the automaton. |
| `XmlTokImpl.ScanEndTag` | libjabber/xmltok_impl_c.h:404-449 | scanEndTag gives the verdict of the automaton. |
| `XmlTokImpl.ScanRef` | libjabber/xmltok_impl_c.h:516-543 | scanRef, with scanCharRef and scanHexCharRef, gives the verdict of the automaton. |
| `XmlTokImpl.ScanAtts` | libjabber/xmltok_impl_c.h:546-703 | scanAtts, with its inner loops for names, `=`, quotes, values and references, gives the verdict of the automaton. |
| `XmlTokImpl.ScanLt` | libjabber/xmltok_impl_c.h:706-803 | scanLt gives the verdict of the automaton. |
| `XmlTokImpl.ContentTokenize` | libjabber/xmltok_impl_c.h:805-899 | contentTok, loops and all, returns the specified verdict. |
| `XmlTokImpl.CdataSectionTokenize` | libjabber/xmltok_impl_c.h:326-401 | cdataSectionTok returns the specified verdict. |
| `XmlTokImpl.PrologTokenize` | libjabber/xmltok_impl_c.h:992-1217 | prologTok returns the specified verdict. |
| `XmlTokImpl.AttributeValueTokenize` | libjabber/xmltok_impl_c.h:1220-1275 | attributeValueTok returns the specified verdict. |
| `XmlTokImpl.NameLength` | libjabber/xmltok_impl_c.h:1664-1688 | nameLength finds where the name ends. |
| `XmlTokImpl.CharacterNumber` | libjabber/xmltok_impl_c.h:1481-1518 | charRefNumber returns the number of the reference or -1. |
| `XmlTokImpl.FillAtts` | libjabber/xmltok_impl_c.h:1389-1478 | getAtts stores the records that fit and counts all of them. |
| `XmlAtts.GetAttsAgrees` | libjabber/xmltok_impl_c.h:1389-1478 | On every start tag scanAtts accepts, getAtts, which has no end pointer, stays inside the tag and finds exactly the name and value positions scanAtts passed. |
| `XmlAtts.TagAttributes` | libjabber/xmltok_impl_c.h:545-701 | The same for a whole tag; `normalized` is set on a value if and only if it has no reference or line break and only single inner spaces. |
| `XmlNormal.PlainStored` | libjabber/xmlparse.c:2346-2479 | A value the fast path copies is what storeAttributeValue would store if the type is CDATA, and, for every other type, if and only if no white space and not the end of the value comes behind a longer character that ends in a space byte. |
| `XmlNormal.FastPathStores` | libjabber/xmlparse.c:1532-1562 | The same for every record marked `normalized` in every start tag the tokenizer accepts. |
| `XmlNormal.WellFormedStored` | libjabber/xmltok.c:125-137 | With the UTF-8 table and well-formed UTF-8 the exception never occurs. |
| `XmlNormal.FalseSpaceStored` | libjabber/xmltok_impl_c.h:1415-1450 | With the UTF-8 table it does occur: the start tag `<a b='C3 20'>`, with those two bytes as its value, is accepted, getAtts marks the record `normalized`, and the slow path would store the value without the space for every type but CDATA. |
| `XmlAppAtts.Turned` | libjabber/xmlparse.c:1526-1580 | Overwriting record i of the ATTRIBUTE array by name and value pointer i leaves all records behind it as they were. |
| `XmlAppAtts.AttributeStore.FillRecords` | libjabber/xmlparse.c:1511-1520 | getAtts into the array, with the second call when the array had to grow, leaves every record of the tag in it. |
| `XmlAppAtts.AttributeStore.RewriteSpecified` | libjabber/xmlparse.c:1521-1581 | The in-place rewrite never overwrites an unread field: the names and values stored are those of the specification on values, duplicates are refused, and exactly the stored names are flagged. |
| `XmlAppAtts.AttributeStore.AppendDefaults` | libjabber/xmlparse.c:1582-1606 | Default attributes that were not specified follow, inside the array. |
| `XmlAppAtts.AttributeStore.StoreAttributes` | libjabber/xmlparse.c:1482-1672 | storeAtts in memory computes the specification, ends the list with a null pointer inside the array, and leaves no name flagged. |
| `XmlRole.AcceptsExactlyContentSpecs` | libjabber/xmlrole.c:860-1071 | The role automaton with its level and the per-level connectors accepts, white space aside, exactly the content specifications of sections 3.2, 3.2.1 and 3.2.2 of XML 1.0, at any depth and whatever connectors were left behind. |
| `XmlRole.SpaceIgnored` | libjabber/xmlrole.c:860-1071 | White space tokens make no difference to what is accepted. |
| `XmlRole.Declarations.OpenGroup` | libjabber/xmlparse.c:2212-2222 | `groupConnector` grows in time: the level is always an index of it, and the connectors below are kept. |
| `XmlRole.Declarations.Connect` | libjabber/xmlparse.c:2223-2236 | A group keeps to one connector; the other one is a syntax error. |
| `XmlRole.Declarations.AtElement1` | libjabber/xmlrole.c:861-886 | element1, a switch that assigns handler and level: EMPTY, ANY or `(`, as the automaton has it. |
| `XmlRole.Declarations.AtElement2` | libjabber/xmlrole.c:889-925 | element2: `#PCDATA`, a nested group or the first name, as the automaton has it. |
| `XmlRole.Declarations.AtElement6` | libjabber/xmlrole.c:987-1014 | element6: behind `(` or a separator, as the automaton has it. |
| `XmlRole.Declarations.AtElement7` | libjabber/xmlrole.c:1017-1054 | element7: a separator, or a `)` that decrements the level and leaves the declaration's groups at zero, as the automaton has it. |
| `XmlRole.Declarations.TokenRole` | libjabber/xmlrole.c:843-1071 | The call of the current handler, any of element0 to element7 and declClose, each with its own assignments, makes the transition of the automaton. |
| `XmlRole.Declarations.Token` | libjabber/xmlparse.c:2202-2236 | One token of a declaration, on the fields and the array, moves the automaton as specified or refuses with the specified error. |
| `XmlRole.Declarations.Declare` | libjabber/xmlparse.c:1967-2277 | A sequence of tokens is accepted by the class exactly if the automaton accepts it. |
| `XmlProlog.ReaderLaws` | libjabber/xmlrole.c:69-1113 | The prolog of the program, all handlers and the actions on the DTD, meets the laws chunk independence and nesting rest on: white space changes the state at most once, and the root, and nothing else, starts the instance. |
| `XmlProlog.FirstDeclarationBinds` | libjabber/xmlparse.c:2119-2148 | Over any further prolog tokens, the first declaration of an entity stays binding (section 4.2 of XML 1.0), and declared attributes are only added behind those there are (section 3.3). |
| `XmlPrologImpl.EntityValueTokenize` | libjabber/xmltok_impl_c.h:1278-1327 | The loop of entityValueTok returns the specified verdict. |
| `XmlPrologImpl.StoreEntityValue` | libjabber/xmlparse.c:2482-2552 | The loop of storeEntityValue puts the specified value into the pool or returns the specified error. |
| `XmlPrologImpl.PublicIdCheck` | libjabber/xmltok_impl_c.h:1330-1382 | The loop of isPublicId accepts exactly the literals all of whose bytes are allowed. |
| `XmlChunks.ProcessExtend` | libjabber/xmlparse.c:948-1477 | Going on with more bytes after a call that was not final is the same as one call on all the bytes, in every phase of the parser. |
| `XmlChunks.ContentExtend` | libjabber/xmlparse.c:1047-1477 | That law for doContent, partial tokens, grown character data and `]]` at the end of a chunk included. |
| `XmlChunks.CdataExtend` | libjabber/xmlparse.c:1744-1832 | That law for doCdataSection. |
| `XmlChunks.PrologExtend` | libjabber/xmlparse.c:1967-2277 | That law for prologProcessor. |
| `XmlChunks.EpilogExtend` | libjabber/xmlparse.c:2280-2334 | That law for epilogProcessor, which consumes a CR at the end of a chunk. |
| `XmlChunks.ParseExtends` | libjabber/xmlparse.c:757-863 | Any number of chunks and the leftovers between them amount to one final call on the concatenation. |
| `XmlChunks.ChunkIndependence` | libjabber/xmlparse.c:757-863 | Any two ways of cutting a document give the same parse, for every prolog that meets the laws. |
| `XmlNesting.ContentFine` | libjabber/xmlparse.c:1047-1477 | doContent keeps the tag stack and the events in step at every base level, and expansion of entities ends by (entities not open, bytes left). |
| `XmlNesting.ExpansionBalanced` | libjabber/xmlparse.c:1114-1190 | A reference to any general entity, expanded inside an element: what it amounts to is balanced by itself and leaves the open tags as they were, or it is an error (section 4.3.2 of XML 1.0). |
| `XmlNesting.TextBalanced` | libjabber/xmlparse.c:1160-1178 | The same for any text that is run through doContent as that of an entity. |
| `XmlNesting.ProcessStops` | libjabber/xmlparse.c:948-2334 | Every call leaves the parser in a state the next call can start from. |
| `XmlNesting.DocumentNested` | libjabber/xmlparse.c:1191-1360 | In every error-free run the events are one nested, name-matched root. |
| `XmlParser.Parser.AppendAttributeValue` | libjabber/xmlparse.c:2361-2479 | appendAttributeValue, recursion into entities included, appends the specified value or returns the specified error, and closes every entity it opened. |
| `XmlParser.Parser.StoreAttributeValue` | libjabber/xmlparse.c:2346-2358 | storeAttributeValue gives the specified value or error. |
| `XmlParser.Parser.StoreAttributes` | libjabber/xmlparse.c:1482-1672 | storeAtts gives the specified attributes or error. |
| `XmlParser.Parser.StartTagToken` | libjabber/xmlparse.c:1191-1318 | A start or empty-element tag: events, tag stack and error as specified. |
| `XmlParser.Parser.EndTagToken` | libjabber/xmlparse.c:1319-1360 | An end tag: ASYNC_ENTITY below the base level, TAG_MISMATCH for another name, otherwise the tag is popped and reported. |
| `XmlParser.Parser.ReferenceToken` | libjabber/xmlparse.c:1114-1190 | A reference to a general entity is expanded while the entity is open, or refused as specified. |
| `XmlParser.Parser.DoContent` | libjabber/xmlparse.c:1047-1477 | doContent, a loop over tokens, does what the specification on bytes says, at every base level and in entities. |
| `XmlParser.Parser.DoCdataSection` | libjabber/xmlparse.c:1744-1832 | doCdataSection does what the specification says and tells where content goes on. |
| `XmlParser.Parser.PrologProcessor` | libjabber/xmlparse.c:1967-2277 | prologProcessor does what the specification says. |
| `XmlParser.Parser.EpilogProcessor` | libjabber/xmlparse.c:2280-2334 | epilogProcessor does what the specification says. |
| `XmlParser.Parser.CallProcessor` | libjabber/xmlparse.c:757-828 | One call of the current processor does what the specification says. |
| `XmlParser.Parser.GetBuffer` | libjabber/xmlparse.c:830-863 | XML_GetBuffer makes room for len bytes, and the leftovers survive every move and growth. |
| `XmlParser.Parser.ParseBuffer` | libjabber/xmlparse.c:811-828 | XML_ParseBuffer answers as specified on leftovers and new bytes. |
| `XmlParser.Parser.Parse` | libjabber/xmlparse.c:757-809 | XML_Parse, with and without leftovers, answers as specified and keeps the bytes it has not consumed. |
| `XmlParser.Parser.ParseDocument` | libjabber/xmlparse.c:757-809 | A document fed chunk by chunk gives the events, success and error code of the specification, up to the first failure. |
| `XmlReports.DocumentReported` | libjabber/xmlparse.c:948-2334 | What is reported for a whole document, in whatever chunks: its bytes are written from an XML declaration, a document type declaration with any declarations, and a root with any content of text, character references, entity references, CDATA sections, comments, instructions and elements. The events are those of sections 2 to 4 of XML 1.0: entities expanded to any depth, declared values added, line ends and values normalized; and where something is wrong in it, the error is the one for that. |
| `XmlReports.InstanceReported` | libjabber/xmlparse.c:948-1477 | The same for documents without a document type declaration. |
| `XmlReports.PrologParsed` | libjabber/xmlparse.c:1967-2277 | Behind any such prolog, byte for byte, the root is parsed with the DTD the declarations mean, incomplete if there is an external subset. |
| `XmlReports.AsidesBehind` | libjabber/xmlparse.c:2280-2334 | Comments and instructions behind the root make no difference. |
| `XmlReports.OneRoot` | libjabber/xmlparse.c:2280-2334 | A second root element is refused. |
| `XmlTags.StartParsed` | libjabber/xmlparse.c:1191-1318 | Any start tag by productions 40, 41 and 44, with white space wherever it may be, either quote, and references in values: its name and attributes are reported, or the error for the first attribute that is repeated or whose value is not in order. |
| `XmlTags.StartRead` | libjabber/xmlparse.c:1482-1606 | The same of storeAtts, fast path or not. |
| `XmlTags.StartGives` | libjabber/xmlparse.c:1482-1606 | What these attributes are: those that are there, in order, each with what its text means for its declared type, none twice, and behind them the declared values of others. |
| `XmlTags.EndParsed` | libjabber/xmlparse.c:1319-1360 | An end tag, with white space or without, closes the innermost element. |
| `XmlMeaning.ItemsRead` | libjabber/xmlparse.c:1047-1477 | Any content, in the document or in the text of an entity, is reported as it is meant, or refused with the error for what is wrong first. |
| `XmlEntities.EntityReplaced` | libjabber/xmlparse.c:1146-1170 | For bytes u, a reference to a declared entity, and bytes v inside an element: the parse is that of u, then that of the entity's text by itself, then that of v. |
| `XmlEntities.OtherReferences` | libjabber/xmlparse.c:1115-1146 | The five predefined entities give their character; undeclared, unparsed and open entities are errors, undeclared ones only where the DTD is known or the document standalone; an external entity reports nothing. |
| `XmlEntities.NoRecursion` | libjabber/xmlparse.c:1142-1143 | An entity whose text refers to it, behind whatever, cannot be referred to. |
| `XmlEntities.PlainEntity` | libjabber/xmlparse.c:1146-1170 | A reference to an entity without markup reports its text, but for line ends. |
| `XmlInstances.EntityReported` | libjabber/xmlparse.c:2119-2148 | The document `<!DOCTYPE a [ <!ENTITY n "v" > ] ><a>&n;</a>`, for all names and all v without references: the characters reported are v's, or the predefined one if n is one of the five. |
| `XmlInstances.DefaultReported` | libjabber/xmlparse.c:2065-2082 | The document `<!DOCTYPE e [ <!ATTLIST e a w "v" > ] ><e/>`, for all names, types w and values v without references, #FIXED or not: the element carries v, its white space normalized as section 3.3.3 of XML 1.0 says for the type; with #IMPLIED or #REQUIRED it carries nothing. |
| `XmlInstances.LaterReported` | libjabber/xmlparse.c:2653-2678 | Declared twice, first as #IMPLIED and then with a value, the attribute is reported with that value: the first declaration does not bind. |
| `XmlDefaults.SuppliedAre` | libjabber/xmlparse.c:1582-1606 | The attributes reported for a tag: no name twice, specified ones as their type has them, and otherwise the first declared value. |
| `XmlDefaults.FirstBindsIff` | libjabber/xmlparse.c:2653-2678 | Section 3.3 of XML 1.0 wants the first declaration of an attribute to bind. It does if and only if it has a value or no later one has. |
| `XmlDefaults.FirstType` | libjabber/xmlparse.c:1535-1547 | The type of an attribute is that of its first declaration. |
| `XmlDeclared.DeclarationMeans` | libjabber/xmlparse.c:1967-2277 | The tokens of any one declaration, of an entity, attributes, an element type or a notation, take the prolog to the DTD the declaration means, or are refused. |
| `XmlDeclared.DeclarationsMean` | libjabber/xmlparse.c:1967-2277 | The same for any sequence of declarations, in order. |
| `XmlDeclarations.OnlyKeywords` | libjabber/xmlrole.c:69-843 | Where a keyword is called for, no other name is taken. |
| `XmlDeclarations.PublicLiteral` | libjabber/xmltok_impl_c.h:1330-1382 | A public identifier is taken if and only if all its characters are those of production 13. |
| `XmlDoctype.DoctypeMeans` | libjabber/xmlrole.c:69-330 | The tokens of a whole document type declaration, external identifier included. |
| `XmlDoctype.SpreadParsed` | libjabber/xmlparse.c:1967-2277 | Reading the bytes of any tokens with a space behind each is taking the tokens. |
| `XmlDtd.AnyToken` | libjabber/xmltok_impl_c.h:992-1217 | Every token of a prolog is read as it is written. |
| `XmlMarkup.SectionParsed` | libjabber/xmlparse.c:1744-1832 | A CDATA section reports its text, but for line ends. |
| `XmlMarkup.PlainParsed` | libjabber/xmlparse.c:1440-1470 | Text in which nothing is markup is reported, but for line ends. |
| `XmlMarkup.InstructionParsed` | libjabber/xmltok_impl_c.h:245-305 | A processing instruction is one token and reports nothing. |
| `XmlMarkup.RemarkParsed` | libjabber/xmltok_impl_c.h:116-151 | A comment is one token and reports nothing. |
| `XmlCharRefs.NumberRead` | libjabber/xmltok_impl_c.h:1481-1518 | Every numeral, hexadecimal in either case of letters or decimal, with leading zeros or without, reads as its number if XML allows that character, and as -1 otherwise. |
| `XmlCharRefs.NumberParsed` | libjabber/xmlparse.c:1361-1373 | In content, such a reference reports the character's UTF-8 bytes or is refused. |
| `XmlCharRefs.NumberAppended` | libjabber/xmlparse.c:2361-2479 | In a value, they are put into the pool, a space as a space. |
| `XmlCharRefs.EncodedDecodes` | libjabber/xmltok.c:1110-1160 | The bytes of XmlUtf8Encode decode to the number they were made for. |
| `XmlLiterals.EntityLiteral` | libjabber/xmlparse.c:2482-2552 | storeEntityValue on any literal: characters take the place of their references, references to entities stay, line ends are normalized. |
| `XmlLiterals.LiteralStored` | libjabber/xmlparse.c:2346-2479 | storeAttributeValue on any literal: what its text and references stand for, white space normalized for the type. |
| `XmlLiterals.TextMeans` | libjabber/xmlparse.c:2436-2475 | In a value, a reference to an entity stands for what the entity's own text means, references in it included. |
| `XmlLiterals.PlainMeans` | libjabber/xmlparse.c:2436-2475 | In a value, a reference to an entity without markup stands for its text, with white space as spaces. |
| `XmlWords.StoredTyped` | libjabber/xmlparse.c:2346-2358 | For any value, the types other than CDATA store its words, one space between them; CDATA stores the value itself. |
| `XmlPrinted.AsciiClasses` | libjabber/asciitab.h:31-62 | The table takes for name characters, white space and characters exactly what productions 2 to 5 of XML 1.0 say, within ASCII. |
| `XmlGrammar.PrologOnly` | libjabber/xmlrole.c:69-1113 | Nothing but a prolog is taken for one: of every document that parses, in whatever chunks, the tokens in front of the root are, white space aside, an XML declaration or none, comments and instructions, and at most one document type declaration, by productions 22, 28, 45, 46, 52 to 60, 70 to 76, 82 and 83 of XML 1.0. |
| `XmlGrammar.OnlyProlog` | libjabber/xmlrole.c:69-1113 | The same for any tokens on which the automaton comes to a state where the root may start. |
| `XmlGrammar.ElementTypeFrom` | libjabber/xmlrole.c:843-1071 | What the handlers of element type declarations take up to the `>` is a content specification. |
| `XmlRefused.DocumentRefused` | libjabber/xmlparse.c:948-1477 | A flaw anywhere inside the root, at any depth, behind any content and any prolog, in whatever chunks, is a fatal error: `]]>` or a byte that is no character in text, `<` or `&` by itself, a reference without `;`, an end tag for another element, attributes run together, without value or without quotes, `<` in a value, `--` in a comment, an XML declaration inside the document, and an element that is not closed. |
| `XmlRefused.TextRefused` | libjabber/xmltok_impl_c.h:805-899 | Text that runs into `]]>` or a byte that is no character is an invalid token. |
| `XmlRefused.OpenerRefused` | libjabber/xmltok_impl_c.h:706-803 | `<` and `&` do not stand by themselves. |
| `XmlRefused.ReferenceRefused` | libjabber/xmltok_impl_c.h:516-543 | A reference to an entity ends with `;`. |
| `XmlRefused.EndTagRefused` | libjabber/xmlparse.c:1319-1360 | An end tag for another element is TAG_MISMATCH, one that would close an element begun outside the entity ASYNC_ENTITY. |
| `XmlRefused.TagRefused` | libjabber/xmltok_impl_c.h:546-703 | Attributes are set off by white space. |
| `XmlRefused.AttributeRefused` | libjabber/xmltok_impl_c.h:546-703 | An attribute has a value, and the value has quotes. |
| `XmlRefused.ValueRefused` | libjabber/xmltok_impl_c.h:546-703 | No `<` in a value. |
| `XmlRefused.RemarkRefused` | libjabber/xmltok_impl_c.h:116-151 | No `--` in a comment. |
| `XmlRefused.DeclarationRefused` | libjabber/xmlparse.c:1374-1375 | An XML declaration in content is MISPLACED_XML_PI. |
| `XmlRefused.JunkRefused` | libjabber/xmlparse.c:2280-2334 | Of all tokens only comments, instructions and white space are taken behind the root. |
| `XmlRefused.PercentRefused` | libjabber/xmlparse.c:2482-2552 | A reference to a parameter entity in a literal is a syntax error. |
| `XmlTree.BuildRebuilds` | libjabber/expat.c:22-61 | The callbacks rebuild a tree from its own events. |
| `XmlTree.BuildConcat` | libjabber/expat.c:22-61 | Calling back for one list of events and then for another is calling back for both. |
| `XmlBuilt.DocumentBuilt` | libjabber/expat.c:22-89 | For every document that parses, the events of the tree that is built are the document's events: nothing is lost or reordered. |
| `XmlPrinted.ValueRestored` | libjabber/str.c:244-310 | Escaped text in an attribute comes back through appendAttributeValue as it was, but for its white space. |
| `XmlPrinted.OpenTagScan` | libjabber/xmlnode.c:128-149 | A printed start tag is scanned to its `>`, and its attributes are passed where they were printed. |
| `XmlRoundTrip.OpenTagParsed` | libjabber/xmlnode.c:128-149 | Tokenizer and storeAtts read the name and the attributes of a printed start tag back, under any DTD: values normalized for their declared types, declared values added. |
| `XmlRoundTrip.TextParsed` | libjabber/str.c:244-310 | Escaped text in front of markup, or at the end of a document or entity, is reported as that text, but for its line ends. |
| `XmlRoundTrip.DataSplit` | libjabber/xmlparse.c:1440-1470 | How character data is cut into callbacks makes no difference to the text. |
| `XmlRoundTrip.PrintedParsed` | libjabber/xmlnode.c:151-204 | The text printed for a tree parses in every chunking, and gives the tree with line ends and white space in values normalized. |
| `XmlRoundTrip.RestoredSame` | libjabber/xmlnode.c:658-702 | Normalizing changes nothing if and only if there is no CR in text and no tab, CR or LF in values. |
| `XmlRoundTrip.RoundTrip` | libjabber/xmlnode.c:128-204 | The tree that comes back is the tree that was printed if and only if that holds. |
| `XmlStr.StrEscape` | libjabber/str.c:244-310 | strescape escapes the five characters, and the buffer it allocates is large enough for every input. |
| `XmlStr.RoomIsEnough` | libjabber/str.c:251-275 | The first pass counts room for the whole escaped text. |
| `XmlStr.UnescapeEscape` | libjabber/str.c:200-241 | strunescape undoes strescape for every text. |
| `XmlStr.UnescapeDefined` | libjabber/str.c:200-241 | The result of strunescape depends on what was in its buffer if and only if some ampersand starts none of the five references. |
| `XmlStr.StrUnescape` | libjabber/str.c:200-241 | The loop of strunescape writes what the specification says, bytes it skips included. |
| `XmlNodes.AppendedOk` | libjabber/xmlnode.c:49-84 | Appending a child, a text or an attribute keeps all links of the table consistent. |
| `XmlNodes.AppendedKid` | libjabber/xmlnode.c:63-84 | The new child is the last of its parent, and no other tree changes. |
| `XmlNodes.RemovedOk` | libjabber/xmlnode.c:117-126 | Unlinking a child keeps all links consistent. |
| `XmlNodes.RemovedKid` | libjabber/xmlnode.c:581-598 | The parent's children are those without the hidden one. |
| `XmlDom.Dom.NewTag` | libjabber/xmlnode.c:221-241 | A new tag without parent is added to the table. |
| `XmlDom.Dom.Insert` | libjabber/xmlnode.c:63-84 | _xmlnode_insert, on the links, appends to the children and keeps the table in order. |
| `XmlDom.Dom.InsertCdata` | libjabber/xmlnode.c:276-305 | Text behind text is merged into it; otherwise a node is appended; nothing else changes. |
| `XmlDom.Dom.Search` | libjabber/xmlnode.c:86-101 | The first sibling of the kind and name, or none. |
| `XmlDom.Dom.PutAttrib` | libjabber/xmlnode.c:408-435 | The attribute is replaced where it is or appended; children and all other trees stay. |
| `XmlDom.Dom.GetAttrib` | libjabber/xmlnode.c:437-448 | The value of the attribute, or none if there is no such name. |
| `XmlDom.Dom.Hide` | libjabber/xmlnode.c:581-598 | The child is gone from its parent, and the others keep their order. |
| `XmlDomRead.StartTag2Str` | libjabber/xmlnode.c:128-149 | The start tag is printed with all attributes, in order. |
| `XmlDomRead.PrintNode` | libjabber/xmlnode.c:151-204 | The stackless walk with `level` and `dir` ends, and prints the specified text for every node with or without siblings. |
| `XmlDomRead.WalkedIsPrinted` | libjabber/xmlnode.c:151-204 | That text is the recursive serialization of the start node if it has children or no next sibling, and otherwise if and only if nothing is printed for the siblings behind it. |
| `XmlDomRead.WalksIntoSibling` | libjabber/xmlnode.c:187-200 | For a childless tag with a tag behind it, the second one is printed too. |
| `XmlDomCopy.Compare` | libjabber/xmlnode.c:658-702 | xmlnode_cmp answers 0 if and only if the two lists stand for the same trees, attributes in the same order. |
| `XmlDomCopy.InsertTagNode` | libjabber/xmlnode.c:705-716 | A copy of the node becomes the last child. |
| `XmlDomCopy.InsertKids` | libjabber/xmlnode.c:719-739 | The children are inserted one after the other, texts merging; the source is not changed. |
| `XmlDomCopy.InsertAtts` | libjabber/xmlnode.c:719-739 | The attributes are put one after the other. |
| `XmlDomCopy.Dup` | libjabber/xmlnode.c:743-758 | The copy is the original with neighbouring texts merged and repeated attributes put once, and no tree that was there changes. |
| `XmlDomCopy.MergedSame` | libjabber/xmlnode.c:743-758 | The copy is equal to the original if and only if no two texts are neighbours and no attribute name comes twice, at any depth. |
| `XmlDomInserts.CallKeeps` | libjabber/xmlnode.c:221-435 | No call of xmlnode_new_tag, xmlnode_insert_tag, xmlnode_insert_cdata, xmlnode_put_attrib or xmlnode_insert_tag_node, at any node, puts neighbouring texts or repeated attribute names into any tree that had none. |
| `XmlDomInserts.CallsKeep` | libjabber/xmlnode.c:221-435 | Hence a tag made by any of them is without them after any further calls. |
| `XmlDomInserts.MakeCall` | libjabber/xmlnode.c:221-435 | The functions on the links do what those calls are said to do. |
| `XmlDomInserts.DupCompare` | libjabber/xmlnode.c:658-758 | xmlnode_cmp of a node and its xmlnode_dup is 0 if and only if the node has no sibling behind it, no neighbouring texts and no repeated attribute names, at any depth. |
| `XmlDomInserts.DupOfMade` | libjabber/xmlnode.c:658-758 | For a tag that was made by any such calls and has no sibling behind it, it is 0. |
| `XmlDomDepth.EndlessIff` | libjabber/xmlnode.c:705-739 | xmlnode_insert_tag_node of any two tags nests without end if and only if the place to insert at is the copied node or below it. |
| `XmlDomDepth.OutsideShallow` | libjabber/xmlnode.c:705-739 | Otherwise it nests no deeper than the copied tree. |
| `XmlDomCopy.HideBreaksSeparate` | libjabber/xmlnode.c:581-598 | Hiding a tag between two texts does not, so that a copy of what is left differs from it. |
| `XmlDomBuild.StartElementCallback` | libjabber/expat.c:22-40 | The element is inserted at the current node and becomes it. |
| `XmlDomBuild.EndElementCallback` | libjabber/expat.c:42-53 | The parent becomes the current node, but for the root. |
| `XmlDomBuild.CharDataCallback` | libjabber/expat.c:55-61 | Text goes to the current node; outside of the root it is dropped. |
| `XmlDomBuild.RunCallbacks` | libjabber/expat.c:22-61 | After any events the node table stands for what the specification builds from them. |
| `XmlDomBuild.XmlnodeStr` | libjabber/expat.c:64-89 | xmlnode_str returns NULL if the text does not parse, and otherwise a root whose events are the document's. |
| `XmlReparse.Reparse` | libjabber/xmlnode.c:633-636 | Printing a node of the table and parsing the text gives a root that stands for the normalized tree, and for the same tree if and only if there was nothing to normalize. |
| `XmlBindings.DeclaresIff` | libjabber/xmlparse.c:2724-2738 | getAttributeId takes an attribute for the declaration of a prefix if and only if it is named `xmlns` or `xmlns:` and the prefix. |
| `XmlBindings.NestedRestores` | libjabber/xmlparse.c:1304-1312 | Over any nested content, closing every element restores every prefix's binding to what it was before, node for node. |
| `XmlBindings.RunConserves` | libjabber/xmlparse.c:1348-1356 | Over any run, every binding node is on exactly one of the tag, inherited and free lists. |
| `XmlAbandoned.AbandonedConserves` | libjabber/xmlparse.c:1287-1298 | When storeAtts returns an error for an empty element, that is still so if and only if no attribute handled before the error declares a prefix: the nodes on the local list are lost otherwise. |
| `XmlAbandoned.RepeatedAttribute` | libjabber/xmlparse.c:1521-1536 | Every tag that repeats an attribute name, whatever its other attributes, is taken by the tokenizer and refused by storeAtts, and the attributes in front of the second one have been handled by then. |
| `XmlAbandoned.LostNode` | libjabber/xmlparse.c:1287-1298 | A tag for which a node is lost: `<a xmlns='u' xmlns='u'/>`. |
| `XmlBindings.RunInForce` | libjabber/xmlparse.c:1675-1721 | At every point of every run a prefix stands for what sections 4, 6.1 and 6.2 of Namespaces in XML say of the attributes of the open elements, `xmlns=""` included. |
| `XmlBindings.NamespaceScopes.AddBinding` | libjabber/xmlparse.c:1675-1721 | addBinding on the linked nodes: a free node or a new one goes in front of the list, and remembers what the prefix was bound to. |
| `XmlBindings.NamespaceScopes.CloseBindings` | libjabber/xmlparse.c:1348-1356 | The closing loop moves every node of the list to the free list and puts every prefix back. |
| `XmlBindings.NamespaceScopes.EmptyElementTag` | libjabber/xmlparse.c:1288-1314 | An empty element binds and unbinds on a local list. |
| `XmlBindings.NamespaceScopes.Content` | libjabber/xmlparse.c:1198-1360 | A run of tokens on the linked nodes is accepted exactly if no end tag is too many, and if it is nested all prefixes are bound as before. |
| `XmlStringPool.StringPool.Grow` | libjabber/xmlparse.c:3197-3250 | poolGrow keeps the string under construction, gives it strictly more room in each of the four branches, moves no finished non-empty string, and loses no block. |
| `XmlStringPool.StringPool.CopyString` | libjabber/xmlparse.c:3159-3168 | The finished copy, with its NUL, is where the returned pointer says, and stays there. |
| `XmlStringPool.StringPool.Clear` | libjabber/xmlparse.c:3102-3119 | All blocks go to the free list; none is lost. |
| `XmlStringPool.StringPool.Destroy` | libjabber/xmlparse.c:3122-3141 | Every block is freed, and freed once. |
| `XmlStringPool.ListedFacts` | libjabber/xmlparse.c:128-137 | Blocks in use and free blocks are different ones, all allocated, none listed twice. |
| `XmlTranscode.FourBytesRight` | libjabber/xmltok.c:533-547 | Two surrogates become the four UTF-8 bytes of their character. |
| `XmlTranscode.ToUtf8` | libjabber/xmltok.c:492-553 | big2_toUtf8 and little2_toUtf8 on the UTF-16 form of any scalar values write the bytes of XmlUtf8Encode for as many whole characters as there is room for. |
| `XmlTranscode.ConvertAll` | libjabber/xmlparse.c:3144-3157 | Called again and again with any buffers of at least four bytes, the converter ends with the whole UTF-8 text. |
| `Sha.CounterStep` | libjabber/sha.c:59-74 | The two 32-bit halves of the length carry as one 64-bit number. |
| `Sha.FilledFull` | libjabber/sha.c:63-69 | After 64 bytes nothing is left of what the sixteen words held before. |
| `Sha.ShaContext.HashBlock` | libjabber/sha.c:123-159 | shaHashBlock compresses the sixteen words as section 6.1.2 of FIPS 180-4 says, whatever was in the rest of W. |
| `Sha.ShaContext.Update` | libjabber/sha.c:59-74 | shaUpdate appends to the message. |
| `Sha.ShaContext.Pad` | libjabber/sha.c:82-92 | The padding is that of section 5.1.1 of FIPS 180-4. |
| `Sha.ShaContext.Final` | libjabber/sha.c:77-109 | shaFinal gives the digest of the whole message and leaves a fresh context. |
| `Sha1Answer.ConstantsAreRoots` | libjabber/sha.c:137-152 | The four constants are the square roots of 2, 3, 5 and 10, times 2 to the 30, without fractions: each satisfies the two inequalities that single it out. |
| `Sha1Answer.AbcDigest` | libjabber/sha.c:77-109 | The digest of "abc" is a9993e36 4706816a ba3e2571 7850c26c 9cd0d89d, proved round by round. |
| `Sha1.SwapReverses` | libyahoo2/sha1.c:114-120 | The byte swap reverses a word. |
| `Sha1.PadCount` | libyahoo2/sha1.c:531-545 | The number of padding bytes SHA1Final takes is that of the standard. |
| `Sha1.SwappedLength` | libyahoo2/sha1.c:98-128 | BYTESWAP64, which swaps two 32-bit halves and the bytes of each, puts the length into memory most significant byte first, on machines of either byte order. |
| `Sha1.Sha1Context.Guts` | libyahoo2/sha1.c:179-453 | SHA1Guts compresses the buffer as section 6.1.2 says, on machines of either byte order. |
| `Sha1.Sha1Context.Update` | libyahoo2/sha1.c:455-529 | SHA1Update appends to the message. |
| `Sha1.Sha1Context.Final` | libyahoo2/sha1.c:531-559 | SHA1Final gives the digest of the whole message. |
| `Sha1.BothDigests` | libyahoo2/sha1.c:154-559 | For every message, and every split into updates for either program, both digests are that of the definition. |
| `Sha1Spec.ChooseForms` | libyahoo2/sha1.c:179-453 | Both other forms of Ch are the function of the standard. |
| `Sha1Spec.MajorityForms` | libyahoo2/sha1.c:179-453 | Both other forms of Maj are the function of the standard. |
| `HashTable.SearchFails` | libjabber/hashtable.c:73-81 | At an empty slot the name is nowhere in the table. |
| `HashTable.Filled` | libjabber/hashtable.c:109-115 | Filling the slot where the search ended keeps every entry reachable and names unique. |
| `HashTable.Table.Probe` | libjabber/hashtable.c:74-81 | The backward probing ends, at the name or at an empty slot. |
| `HashTable.Table.Rehash` | libjabber/hashtable.c:83-107 | Doubling keeps all entries, the same objects. |
| `HashTable.Table.Lookup` | libjabber/hashtable.c:61-115 | lookup is find-or-insert on a finite map, with the identity of entries kept. |
| `HashTable.Iterator.Next` | libjabber/hashtable.c:142-150 | The next entry, or NULL behind the last. |
| `HashTable.AllEntries` | libjabber/hashtable.c:136-150 | Iterating gives each entry of the map exactly once. |
| `JidText.NewOfParts` | libjabber/jid.c:48-97 | For any text taken apart at its separators: the server of what jid_new returns is the host part in lower case, letter by letter by a table of the 26 pairs, the user is cut at 64 characters, the resource is as it is, and it is refused exactly for a host or user with a character that is not allowed. |
| `JidText.AnyText` | libjabber/jid.c:48-97 | Every text can be taken apart so. |
| `JidText.SameIff` | libjabber/jid.c:217-227 | jid_cmp takes two ids as equal if and only if server and resource are the same and the users have equal length and differ at most in the case of letters. |
| `JidText.LettersDiffer` | libjabber/jid.c:243-264 | Ids whose users are different letters stay different, and both get into a list. |
| `Jid.RoundTrip` | libjabber/jid.c:48-159 | What jid_new accepts is read again, the same, from what jid_full writes. |
| `Jid.ReadsBackIff` | libjabber/jid.c:48-159 | For any id that jid_new and jid_set can give, that holds if and only if there is no `/` in its user. |
| `Jid.NewInOrder` | libjabber/jid.c:22-97 | What jid_new returns is checked and normalized, and jid_safe changes it no more. |
| `Jid.EndlessIff` | libjabber/jid.c:243-264 | A new node of jid_append is not found by the next comparison if and only if the user has a `/` with a valid host name in front. |
| `Jid.AppendEndsIff` | libjabber/jid.c:243-264 | The loop of jid_append ends if and only if the id is in the list already or is found once added. |
| `Jid.ParsedEnds` | libjabber/jid.c:243-264 | For every id that jid_new returned, jid_append comes to its end on every list. |
| `Jid.SlashUser` | libjabber/jid.c:99-134 | An id for which it does not, the printed form being read as another id: host `h`, with the user set to `a/b`. |
| `Jid.AppendedDifferent` | libjabber/jid.c:243-264 | jid_append adds at most one id and keeps the list free of equal ones; the id is in it afterwards. |
| `Jid.JidRecord.JidFull` | libjabber/jid.c:136-159 | The cached copy is always the printed id. |
| `Jid.JidRecord.JidSafe` | libjabber/jid.c:22-46 | The loops over the characters check and lower as specified. |
| `Jid.JidRecord.JidSet` | libjabber/jid.c:99-134 | The part is taken if the id is then in order; otherwise the id is what it was. |
| `Jid.JidAppend` | libjabber/jid.c:243-264 | jid_append on the linked records, for every list and id for which it ends. |

## Left out

- Byte order marks, other encodings than the one given, the UTF-16 scanner, and a change of encoding by an XML declaration.
- External entities and external parsers; handlers libjabber does not set (comments, processing instructions, CDATA borders, default, notations); positions for error messages.
- Expanded namespace names: the prefix is resolved (`XmlBindings`), the name put together from it is not.
- Failing allocation.
- `libjabber/genhash.c`, `libjabber/pool.c` and `connwrap/md5.c`: another map, a bump allocator and another streaming digest; the map, the carved blocks and the digests here are of the same kinds.
- XmlReports.DocumentReported: in the prolog there is one space behind every token. Other white space there is the same to the parser by `XmlProlog.ReaderLaws`, and `XmlGrammar.PrologOnly` is about every prolog.
- XmlReports.InstanceReported: the same.
- XmlPrinted.AsciiClasses: which characters beyond ASCII are name characters (the bitmaps of `nametab.h`) is a parameter.
- Networking, rosters, IRC and the user interface.
- XmlProlog.ReaderLaws: the handlers and actions of the prolog outside of element type declarations are functions on values; element type declarations are also there as a class that assigns handler, level and connectors (`XmlRole.Declarations`), the loops over entity values and public identifiers as methods (`XmlPrologImpl`).
- XmlDocuments.AnyChunks: after a failure only the error code is the same, for the text reported before it depends on the chunks.
- XmlChunks.ChunkIndependence: as `XmlDocuments.AnyChunks`.
- XmlParser.Parser.ParseDocument: the file reading around it is not modelled.
- XmlDomBuild.XmlnodeStr: the callbacks run on the events after the parse, not during it; they do not influence the parse in the original either.
- XmlDomCopy.InsertKids: the node copied from must not be the one copied to nor hold it, for then the original goes on copying what it has just inserted; `XmlDomDepth.EndlessIff` says that this is exactly when it does.
- XmlDomCopy.InsertTagNode: the same.
- XmlDom.Dom.InsertCdata: strings are sequences; the copying of `_xmlnode_merge` is not modelled. A NUL, which the UTF-8 table takes as the second byte of a two-byte character, ends a string in the original and does not here.
- XmlDomRead.PrintNode: the spool is a string.
- XmlAppAtts.AttributeStore.StoreAttributes: after an error names stay flagged, as in the original, where no further tag is read then.
- XmlBindings.NamespaceScopes.Content: only tokens that open and close elements, at the level of the document; entities are balanced by `XmlNesting.ExpansionBalanced`. The nodes of an element whose end tag does not match stay with it, and parsing is over.
- XmlStringPool.StringPool.Grow: block sizes are not limited by the width of int.
- XmlTranscode.ToUtf8: input is the UTF-16 form of scalar values; a lone surrogate is not. Shifts and masks are written as arithmetic.
- Sha1.Sha1Context.Guts: the unrolled rounds are four loops of twenty, each with its function and constant, and the stack is not wiped.
- Sha1.Sha1Context.Update: the path that copies block by block (FAST_COPY undefined).
- HashTable.Table.Lookup: `hash & (size - 1)` is `hash % size`, sizes being powers of two; overflow of the size is not modelled.
- Jid.JidRecord.JidSet: jid_safe runs on the new string in place, as in the original; the pool that owns it is not modelled.
- Jid.JidAppend: it is required to end, by the condition of `Jid.AppendEndsIff`.
