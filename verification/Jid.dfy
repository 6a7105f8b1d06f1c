/**
 Jabber IDs, libjabber/jid.c: `jid_new` and `jid_safe` read and check
 user@server/resource, `jid_full` writes it again and caches it, `jid_set`
 changes a part and `jid_append` adds an id to a list of different ones.

 `char` is signed and the character classes are those of the C locale.
 */
module Jid {
  import opened XmlValue

  datatype Id = Id(user: Option<string>, server: string, resource: Option<string>)

  function Lower(c: char): char { if 'A' <= c <= 'Z' then c - 'A' + 'a' else c }

  function Lowered(s: string): (r: string)
    ensures |r| == |s|
  {
    seq(|s|, i requires 0 <= i < |s| => Lower(s[i]))
  }

  predicate ServerChar(c: char)
  {
    'a' <= c <= 'z' || '0' <= c <= '9' || c == '.' || c == '-' || c == '_'
  }

  /** Neither control, blank nor separator; bytes from 128 on are negative and so refused as well. */
  predicate UserChar(c: char)
  {
    32 < c as int < 128 && c !in ":@<>'\"&"
  }

  function Cut(s: string, n: nat): string { if |s| > n then s[..n] else s }

  predicate ServerOk(s: string) { 0 < |s| <= 255 && forall i :: 0 <= i < |s| ==> ServerChar(s[i]) }

  predicate UserOk(s: string) { forall i :: 0 <= i < |s| ==> UserChar(s[i]) }

  /** jid_safe: the id with its server in lower case and its user cut off, if they are in order. */
  function Safe(id: Id): Option<Id>
  {
    var user := if id.user == None then None else Some(Cut(id.user.value, 64));
    if ServerOk(Lowered(id.server)) && (user.Some? ==> UserOk(user.value)) then Some(Id(user, Lowered(id.server), id.resource)) else None
  }

  /** strstr for one character; the length of the string if it has none. */
  function Find(s: string, c: char): (i: nat)
    ensures i <= |s| && (forall j :: 0 <= j < i ==> s[j] != c) && (i < |s| ==> s[i] == c)
  {
    if s == "" || s[0] == c then 0 else 1 + Find(s[1..], c)
  }

  function NonEmpty(s: string): Option<string> { if s == "" then None else Some(s) }

  /** What is in front of the "/", without a "type:". */
  function Address(s: string): string
  {
    var head := s[..Find(s, '/')];
    var colon := Find(head, ':');
    if colon < |head| then head[colon + 1..] else head
  }

  /** jid_new. */
  function New(s: string): Option<Id>
  {
    var slash := Find(s, '/');
    var address := Address(s);
    var at := Find(address, '@');
    var resource := if slash < |s| then NonEmpty(s[slash + 1..]) else None;
    if s == "" then None
    else if at == |address| then Safe(Id(None, address, resource))
    else Safe(Id(NonEmpty(address[..at]), address[at + 1..], resource))
  }

  /** jid_full. */
  function Full(id: Id): string
  {
    (if id.user == None then "" else id.user.value + "@") + id.server
    + (if id.resource == None then "" else "/" + id.resource.value)
  }

  /** What every id is, from jid_new on and through every jid_set. */
  predicate InOrder(id: Id)
  {
    Safe(id) == Some(id) && id.user != Some("") && id.resource != Some("")
  }

  lemma {:induction false} LowerTwice(s: string)
    ensures Lowered(Lowered(s)) == Lowered(s)
  {
  }

  lemma {:induction false} SafeTwice(id: Id)
    requires Safe(id).Some?
    ensures Safe(Safe(id).value) == Safe(id) && (Safe(id).value.user == Some("") <==> id.user == Some(""))
  {
    LowerTwice(id.server);
  }

  lemma {:induction false} NewInOrder(s: string)
    requires New(s).Some?
    ensures InOrder(New(s).value) && (New(s).value.user.Some? ==> '/' !in New(s).value.user.value)
  {
    hide Safe;
    var slash := Find(s, '/');
    var address := Address(s);
    var at := Find(address, '@');
    assert forall i :: 0 <= i < |address| ==> address[i] != '/';
    var resource := if slash < |s| then NonEmpty(s[slash + 1..]) else None;
    var id := if at == |address| then Id(None, address, resource) else Id(NonEmpty(address[..at]), address[at + 1..], resource);
    SafeTwice(id);
    SafeParts(id);
  }

  lemma {:induction false} SafeParts(id: Id)
    requires Safe(id).Some?
    ensures var r := Safe(id).value;
            && r.resource == id.resource && (r.user == None <==> id.user == None)
            && (r.user.Some? ==> r.user.value <= id.user.value)
  {
  }

  lemma {:induction false} OrderParts(id: Id)
    requires InOrder(id)
    ensures id.server != "" && forall i :: 0 <= i < |id.server| ==> id.server[i] != '/' && id.server[i] != ':' && id.server[i] != '@'
    ensures id.user.Some? ==> id.user.value != "" && forall i :: 0 <= i < |id.user.value| ==> id.user.value[i] != ':' && id.user.value[i] != '@'
  {
    assert ServerOk(id.server);
    if id.user.Some? { assert UserOk(id.user.value); }
  }

  lemma {:induction false} FoundAt(s: string, c: char, before: string, after: string)
    requires s == before + [c] + after && c !in before
    ensures Find(s, c) == |before| && s[..|before|] == before && s[|before| + 1..] == after
  {
    assert s[|before|] == c;
    forall j | 0 <= j < |before| ensures s[j] != c { assert s[j] == before[j]; }
  }

  lemma {:induction false} NotFound(s: string, c: char)
    requires c !in s
    ensures Find(s, c) == |s|
  {
  }

  function AddressOf(id: Id): string { (if id.user == None then "" else id.user.value + "@") + id.server }

  /** Reading a printed id whose user has no "/". */
  lemma {:induction false} ReadsBack(id: Id)
    requires InOrder(id) && (id.user.Some? ==> '/' !in id.user.value)
    ensures New(Full(id)) == Some(id)
  {
    hide Safe;
    OrderParts(id);
    var s, address := Full(id), AddressOf(id);
    assert '/' !in address && ':' !in address;
    if id.resource.Some? {
      assert s == address + ['/'] + id.resource.value;
      FoundAt(s, '/', address, id.resource.value);
    } else {
      assert s == address;
      NotFound(s, '/');
      assert s[..|s|] == s;
    }
    NotFound(address, ':');
    assert Address(s) == address;
    if id.user.Some? {
      assert address == id.user.value + ['@'] + id.server;
      FoundAt(address, '@', id.user.value, id.server);
    } else {
      assert address == id.server;
      NotFound(address, '@');
    }
    assert (if Find(s, '/') < |s| then NonEmpty(s[Find(s, '/') + 1..]) else None) == id.resource;
  }

  /** The round trip: what jid_new accepts is read again from what jid_full writes. */
  lemma {:induction false} RoundTrip(s: string)
    requires New(s).Some?
    ensures New(Full(New(s).value)) == New(s)
  {
    hide New; hide Full;
    NewInOrder(s);
    ReadsBack(New(s).value);
  }

  /** The server read from an id whose user has a "/": what is in front of it. */
  function Host(user: string): string { user[..Find(user, '/')] }

  lemma {:induction false} ReadsHost(id: Id)
    requires InOrder(id) && id.user.Some? && '/' in id.user.value
    ensures New(Full(id)).Some? <==> Safe(Id(None, Host(id.user.value), None)).Some?
    ensures New(Full(id)).Some? ==> New(Full(id)).value.user == None
  {
    OrderParts(id);
    var user := id.user.value;
    var slash := Find(user, '/');
    assert slash < |user|;
    var s := Full(id);
    var after := user[slash + 1..] + "@" + id.server + (if id.resource == None then "" else "/" + id.resource.value);
    assert user == Host(user) + ['/'] + user[slash + 1..];
    assert s == Host(user) + ['/'] + after;
    FoundAt(s, '/', Host(user), after);
    NotFound(Host(user), ':');
    NotFound(Host(user), '@');
  }

  /** The round trip of an id with a part set by jid_set: it fails for a user with a "/", and only for one. */
  lemma {:induction false} ReadsBackIff(id: Id)
    requires InOrder(id)
    ensures New(Full(id)) == Some(id) <==> id.user == None || '/' !in id.user.value
  {
    hide New; hide Full; hide InOrder;
    if id.user == None || '/' !in id.user.value { ReadsBack(id); } else { ReadsHost(id); }
  }

  lemma {:induction false} OrderedParts(id: Id)
    requires InOrder(id)
    ensures forall i :: 0 <= i < |id.server| ==> Lower(id.server[i]) == id.server[i]
    ensures id.user.Some? ==> Cut(id.user.value, 64) == id.user.value
  {
  }

  lemma {:induction false} SafeResource(id: Id, resource: Option<string>)
    requires InOrder(id)
    ensures Safe(id.(resource := resource)) == Some(id.(resource := resource))
  {
  }

  // Comparison and lists

  /** jid_cmp. */
  predicate Same(a: Id, b: Id)
  {
    && a.resource == b.resource && a.server == b.server
    && match a.user
       case None => b.user == None
       case Some(u) => b.user.Some? && Lowered(u) == Lowered(b.user.value)
  }

  lemma {:induction false} SameIsEquivalence(a: Id, b: Id, c: Id)
    ensures Same(a, a) && (Same(a, b) <==> Same(b, a)) && (Same(a, b) && Same(b, c) ==> Same(a, c))
  {
  }

  predicate Has(list: seq<Id>, b: Id)
  {
    exists i :: 0 <= i < |list| && Same(list[i], b)
  }

  predicate Different(list: seq<Id>)
  {
    forall i, j :: 0 <= i < j < |list| ==> !Same(list[i], list[j])
  }

  /** The loop of jid_append: at which id of the list it is, or over. */
  datatype Loop = At(list: seq<Id>, i: nat) | Over(list: seq<Id>)

  function Turn(l: Loop, b: Id): Loop
  {
    if l.Over? || l.i >= |l.list| then Over(l.list)
    else if Same(l.list[l.i], b) then Over(l.list)
    else if l.i + 1 == |l.list| then
      match New(Full(b))
      case None => Over(l.list)
      case Some(c) => At(l.list + [c], l.i + 1)
    else At(l.list, l.i + 1)
  }

  function Turns(l: Loop, b: Id, n: nat): Loop
    decreases n
  {
    if n == 0 then l else Turns(Turn(l, b), b, n - 1)
  }

  /** A new node would not be found either. */
  predicate Endless(b: Id)
  {
    New(Full(b)).Some? && !Same(New(Full(b)).value, b)
  }

  /** That is so exactly for a user whose "/" stands behind a host name. */
  lemma {:induction false} EndlessIff(b: Id)
    requires InOrder(b)
    ensures Endless(b) <==> b.user.Some? && '/' in b.user.value && Safe(Id(None, Host(b.user.value), None)).Some?
  {
    hide New; hide Full; hide InOrder; hide Safe;
    if b.user.Some? && '/' in b.user.value {
      ReadsHost(b);
    } else {
      ReadsBack(b);
      SameIsEquivalence(b, b, b);
    }
  }

  /** An id as jid_new reads it never is one of those. */
  lemma {:induction false} ParsedEnds(s: string, list: seq<Id>)
    requires New(s).Some? && list != []
    ensures !Endless(New(s).value) && exists n :: Turns(At(list, 0), New(s).value, n).Over?
  {
    hide New; hide Full; hide Endless; hide Turns;
    NewInOrder(s);
    EndlessIff(New(s).value);
    AppendEndsIff(list, New(s).value);
  }

  /** The id h, its user set to "a/b": it is in order, is read back as another one, and jid_append to the list of h goes on for ever. */
  lemma {:induction false} SlashUser()
    ensures var b := Id(Some("a/b"), "h", None);
            && New("h") == Some(Id(None, "h", None)) && Safe(Put(New("h").value, UserPart, "a/b")) == Some(b) && InOrder(b)
            && New(Full(b)) == Some(Id(None, "a", Some("b@h"))) && Endless(b)
            && forall n :: Turns(At([Id(None, "h", None)], 0), b, n).At?
  {
    var b, list := Id(Some("a/b"), "h", None), [Id(None, "h", None)];
    assert Lowered("h") == "h" && Lowered("a") == "a";
    assert UserOk("a/b");
    NotFound("h", '/');
    NotFound("h", ':');
    NotFound("h", '@');
    assert "h"[..1] == "h";
    assert Full(b) == "a" + ['/'] + "b@h";
    FoundAt(Full(b), '/', "a", "b@h");
    NotFound("a", ':');
    NotFound("a", '@');
    forall n ensures Turns(At(list, 0), b, n).At? { RunsOn(At(list, 0), b, n); }
  }

  lemma {:induction false} RunsOn(l: Loop, b: Id, n: nat)
    requires Endless(b) && l.At? && l.i < |l.list| && forall k :: l.i <= k < |l.list| ==> !Same(l.list[k], b)
    ensures Turns(l, b, n).At?
    decreases n
  {
    if n > 0 { RunsOn(Turn(l, b), b, n - 1); }
  }

  lemma {:induction false} Stops(l: Loop, b: Id, n: nat)
    requires l.At? && l.i < |l.list| && n > |l.list| - l.i && (!Endless(b) || exists k :: l.i <= k < |l.list| && Same(l.list[k], b))
    ensures Turns(l, b, n).Over?
    decreases |l.list| - l.i
  {
    hide New; hide Full;
    var t := Turn(l, b);
    if t.Over? {
      StaysOver(t, b, n - 1);
    } else if l.i + 1 < |l.list| {
      Stops(t, b, n - 1);
    } else {
      assert Turn(t, b).Over?;
      StaysOver(Turn(t, b), b, n - 2);
    }
  }

  lemma {:induction false} StaysOver(l: Loop, b: Id, n: nat)
    requires l.Over?
    ensures Turns(l, b, n) == l
    decreases n
  {
    if n > 0 { StaysOver(l, b, n - 1); }
  }

  /** jid_append comes to an end exactly if the id is in the list already or can be read back. */
  lemma {:induction false} AppendEndsIff(list: seq<Id>, b: Id)
    requires list != []
    ensures (exists n :: Turns(At(list, 0), b, n).Over?) <==> Has(list, b) || !Endless(b)
  {
    hide Endless; hide Turns;
    if Has(list, b) || !Endless(b) {
      Stops(At(list, 0), b, |list| + 1);
    } else {
      forall n ensures !Turns(At(list, 0), b, n).Over? { RunsOn(At(list, 0), b, n); }
    }
  }

  // The records

  datatype Part = UserPart | ServerPart | ResourcePart

  function Put(id: Id, part: Part, str: string): Id
  {
    match part
    case UserPart => id.(user := NonEmpty(str))
    case ServerPart => id.(server := str)
    case ResourcePart => id.(resource := NonEmpty(str))
  }

  class JidRecord {
    var user: Option<string>
    var server: string
    var resource: Option<string>
    var full: Option<string>
    var next: JidRecord?

    function Value(): Id
      reads this
    {
      Id(user, server, resource)
    }

    /** The cached copy, if there is one, is up to date. */
    ghost predicate Valid()
      reads this
    {
      InOrder(Value()) && (full.Some? ==> full.value == Full(Value()))
    }

    /** The end of jid_new, for a string it accepts. */
    constructor (id: Id)
      requires InOrder(id)
      ensures Valid() && Value() == id && next == null
    {
      user, server, resource, full, next := id.user, id.server, id.resource, None, null;
    }

    /** jid_full. */
    method JidFull() returns (s: string)
      requires Valid()
      modifies `full
      ensures Valid() && s == Full(Value())
    {
      if full.Some? { return full.value; }
      s := "";
      if user.Some? { s := s + user.value + "@"; }
      s := s + server;
      if resource.Some? { s := s + "/" + resource.value; }
      full := Some(s);
    }

    /** jid_safe. */
    method JidSafe() returns (ok: bool)
      modifies `server, `user
      ensures ok == Safe(old(Value())).Some? && (old(user) == None ==> user == None)
      ensures ok ==> Value() == Safe(old(Value())).value
      ensures |server| == |old(server)| && forall i :: 0 <= i < |server| ==> server[i] == old(server)[i] || server[i] == Lower(old(server)[i])
      ensures user == old(user) || (user.Some? && user.value == Cut(old(user).value, 64))
    {
      hide ServerChar; hide UserChar; hide Lower;
      if server == "" || |server| > 255 { return false; }
      ghost var was := server;
      var i := 0;
      while i < |server|
        modifies `server
        invariant i <= |server| == |was| && user == old(user)
        invariant forall j :: 0 <= j < i ==> server[j] == Lower(was[j]) && ServerChar(server[j])
        invariant forall j :: i <= j < |was| ==> server[j] == was[j]
      {
        server := server[i := Lower(server[i])];
        if !ServerChar(server[i]) {
          assert server[i] == Lowered(was)[i];
          return false;
        }
        i := i + 1;
      }
      assert server == Lowered(was);
      if user.Some? {
        user := Some(Cut(user.value, 64));
        for j := 0 to |user.value|
          invariant UserOk(user.value[..j])
          modifies {}
        {
          if !UserChar(user.value[j]) { return false; }
        }
        assert user.value[..|user.value|] == user.value;
      }
      ok := true;
    }

    /** jid_set: a part that would not be in order is not taken. */
    method JidSet(str: string, part: Part)
      requires Valid()
      modifies `user, `server, `resource, `full
      ensures Valid() && full == None
      ensures Value() == match Safe(Put(old(Value()), part, str))
                         case None => old(Value())
                         case Some(id) => id
    {
      full := None;
      ghost var id := Put(Value(), part, str);
      if Safe(id).Some? { SafeTwice(id); SafeParts(id); }
      OrderedParts(Value());
      if part == ResourcePart { SafeResource(Value(), NonEmpty(str)); }
      match part
      case ResourcePart =>
        resource := NonEmpty(str);
      case UserPart =>
        var oldUser := user;
        user := NonEmpty(str);
        var ok := JidSafe();
        assert server == old(server);
        if !ok { user := oldUser; }
      case ServerPart =>
        var oldServer := server;
        server := str;
        var ok := JidSafe();
        assert user == old(user);
        if !ok { server := oldServer; }
    }
  }

  function Values(nodes: seq<JidRecord>): (l: seq<Id>)
    reads nodes
    ensures |l| == |nodes| && forall i :: 0 <= i < |l| ==> l[i] == nodes[i].Value()
  {
    seq(|nodes|, i requires 0 <= i < |nodes| reads nodes => nodes[i].Value())
  }

  ghost predicate NextIs(nodes: seq<JidRecord>, i: nat)
    requires i < |nodes|
    reads nodes`next
  {
    nodes[i].next == (if i + 1 < |nodes| then nodes[i + 1] else null)
  }

  /** The records from `a` on, along `next`. */
  ghost predicate Linked(a: JidRecord?, nodes: seq<JidRecord>)
    reads nodes`next
  {
    && a == (if nodes == [] then null else nodes[0])
    && (forall i, j :: 0 <= i < j < |nodes| ==> nodes[i] != nodes[j])
    && forall i :: 0 <= i < |nodes| ==> NextIs(nodes, i)
  }

  /** What jid_append makes of the list. */
  function Appended(list: seq<Id>, b: Id): seq<Id>
  {
    if Has(list, b) || New(Full(b)) == None then list else list + [New(Full(b)).value]
  }

  lemma {:induction false} AppendedOld(list: seq<Id>, b: Id, i: nat)
    requires i < |list| && Same(list[i], b)
    ensures Appended(list, b) == list
  {
  }

  /** Behind the last id, none being equal. */
  lemma {:induction false} AppendedNew(list: seq<Id>, b: Id)
    requires (Has(list, b) || !Endless(b)) && forall k :: 0 <= k < |list| ==> !Same(list[k], b)
    ensures New(Full(b)) == None ==> Appended(list, b) == list
    ensures New(Full(b)).Some? ==> Same(New(Full(b)).value, b) && Appended(list, b) == list + [New(Full(b)).value]
  {
  }

  /** A list of different ids stays one, and then has the new id in it. */
  lemma {:induction false} AppendedDifferent(list: seq<Id>, b: Id)
    requires Different(list) && (Has(list, b) || !Endless(b))
    ensures Different(Appended(list, b)) && |Appended(list, b)| <= |list| + 1
    ensures New(Full(b)).Some? ==> Has(Appended(list, b), b)
  {
    hide New; hide Full; hide Same;
    var all := Appended(list, b);
    if all != list {
      assert Same(all[|list|], b);
      forall i, j | 0 <= i < j < |all| ensures !Same(all[i], all[j]) {
        if j == |list| { SameIsEquivalence(list[i], all[j], b); }
      }
    }
  }

  lemma {:induction false} LinkedNext(a: JidRecord?, nodes: seq<JidRecord>, i: nat)
    requires Linked(a, nodes) && i < |nodes|
    ensures nodes[i].next == (if i + 1 < |nodes| then nodes[i + 1] else null)
  {
    assert NextIs(nodes, i);
  }

  lemma {:induction false} LinkedHead(a: JidRecord?, nodes: seq<JidRecord>)
    requires Linked(a, nodes)
    ensures a == (if nodes == [] then null else nodes[0])
  {
  }

  /** `next->next = jid_new(...)` at the end of the list. */
  method Link(last: JidRecord, c: Id, a: JidRecord, ghost nodes: seq<JidRecord>) returns (ghost after: seq<JidRecord>)
    requires Linked(a, nodes) && nodes != [] && last == nodes[|nodes| - 1] && InOrder(c)
    modifies last`next
    ensures Linked(a, after) && |after| == |nodes| + 1 && nodes <= after && fresh(after[|nodes|])
    ensures Values(after) == Values(nodes) + [c] && last.next == after[|nodes|]
  {
    hide InOrder;
    forall k | 0 <= k < |nodes| - 1 ensures nodes[k].next == nodes[k + 1] { LinkedNext(a, nodes, k); }
    var added := new JidRecord(c);
    last.next := added;
    after := nodes + [added];
    forall k | 0 <= k < |after| ensures NextIs(after, k) {
      if k < |nodes| - 1 { assert nodes[k] != last; }
    }
    assert Values(after) == Values(nodes) + [c];
  }

  /** The branch of jid_append on the last record: a node with the printed id, if that can be read. */
  method AppendBehind(last: JidRecord, b: JidRecord, a: JidRecord, ghost nodes: seq<JidRecord>) returns (ghost after: seq<JidRecord>)
    requires Linked(a, nodes) && nodes != [] && last == nodes[|nodes| - 1] && b.Valid()
    requires !Has(Values(nodes), b.Value()) && !Endless(b.Value())
    modifies last`next, b`full
    ensures Linked(a, after) && b.Valid() && b.Value() == old(b.Value()) && nodes <= after && |after| <= |nodes| + 1
    ensures |after| == |nodes| ==> New(Full(b.Value())) == None && Values(after) == old(Values(nodes))
    ensures |after| != |nodes| ==> fresh(after[|nodes|]) && Same(after[|nodes|].Value(), b.Value()) && Values(after) == Appended(old(Values(nodes)), b.Value())
  {
    hide New; hide Full; hide Safe; hide Same; hide Has; hide InOrder; hide Endless; hide Appended; hide Linked;
    ghost var id, list := b.Value(), Values(nodes);
    after := nodes;
    NotThere(list, id);
    AppendedNew(list, id);
    var s := b.JidFull();
    var c := New(s);
    if c.Some? {
      NewInOrder(s);
      after := Link(last, c.value, a, nodes);
      assert Values(after)[|nodes|] == after[|nodes|].Value();
    }
  }

  lemma {:induction false} NotThere(list: seq<Id>, b: Id)
    requires !Has(list, b)
    ensures forall k :: 0 <= k < |list| ==> !Same(list[k], b)
  {
  }

  lemma {:induction false} NoneThere(list: seq<Id>, b: Id)
    requires forall k :: 0 <= k < |list| ==> !Same(list[k], b)
    ensures !Has(list, b)
  {
  }

  /** jid_append, when it comes to an end. */
  method JidAppend(a: JidRecord?, b: JidRecord?, ghost nodes: seq<JidRecord>) returns (r: JidRecord?, ghost after: seq<JidRecord>)
    requires Linked(a, nodes) && (b != null ==> b.Valid() && (nodes == [] || Has(Values(nodes), b.Value()) || !Endless(b.Value())))
    modifies nodes`next, (if b == null then {} else {b})`full
    ensures r == a && Linked(a, after) && (b != null ==> b.Valid())
    ensures nodes <= after && forall k :: |nodes| <= k < |after| ==> fresh(after[k])
    ensures Values(after) == if a == null || b == null then old(Values(nodes)) else Appended(old(Values(nodes)), old(b.Value()))
  {
    hide New; hide Full; hide Safe; hide Same; hide Has; hide InOrder; hide Endless; hide Appended; hide Linked;
    r, after := a, nodes;
    if a == null || b == null { return; }
    ghost var id, list := b.Value(), Values(nodes);
    LinkedHead(a, nodes);
    var next: JidRecord? := a;
    ghost var i := 0;
    while next != null
      invariant Linked(a, after) && i <= |after| && next == (if i < |after| then after[i] else null)
      invariant b.Valid() && b.Value() == id
      invariant i <= |list| && forall k :: 0 <= k < i ==> !Same(list[k], id)
      invariant nodes <= after && forall k :: |nodes| <= k < |after| ==> fresh(after[k])
      invariant |after| == |nodes| ==> Values(after) == list && (i < |nodes| || New(Full(id)) == None)
      invariant |after| != |nodes| ==> i == |nodes| < |after| && Values(after) == Appended(list, id) && Same(after[i].Value(), id)
      decreases |nodes| + 1 - i
    {
      if Same(next.Value(), b.Value()) {
        if |after| == |nodes| { AppendedOld(list, id, i); }
        return;
      }
      LinkedNext(a, after, i);
      if next.next == null {
        assert after == nodes && Values(after)[i] == next.Value();
        NoneThere(list, id);
        after := AppendBehind(next, b, a, nodes);
        assert after[i] == nodes[i];
        LinkedNext(a, after, i);
      }
      next := next.next;
      i := i + 1;
    }
    AppendedNew(list, id);
  }
}
