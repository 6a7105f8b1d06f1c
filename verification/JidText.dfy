/**
 What jid_new of libjabber/jid.c reads from any text, part by part, and when
 jid_cmp takes two ids for the same: letters are told from one another by two
 alphabets, not by their codes.
 */
module JidText {
  import opened XmlValue
  import opened Jid

  const CAPITALS := "ABCDEFGHIJKLMNOPQRSTUVWXYZ"
  const SMALL := "abcdefghijklmnopqrstuvwxyz"
  const HOST_OTHERS := "0123456789.-_"

  lemma {:induction false} Alphabets(k: nat)
    requires k < 26
    ensures |CAPITALS| == |SMALL| == 26 && CAPITALS[k] as int == 'A' as int + k && SMALL[k] as int == 'a' as int + k
  {
  }

  /** The same character, or the same letter in the other case. */
  ghost predicate Alike(c: char, d: char)
  {
    c == d || exists k :: 0 <= k < 26 && Pair(k, c, d)
  }

  predicate Pair(k: nat, c: char, d: char)
    requires k < |CAPITALS| && k < |SMALL|
  {
    (c == CAPITALS[k] && d == SMALL[k]) || (c == SMALL[k] && d == CAPITALS[k])
  }

  /** `d` is the small letter for the capital `c`, or `c` itself if that is no capital. */
  ghost predicate SmallFor(c: char, d: char)
  {
    (c !in CAPITALS && d == c) || exists k :: 0 <= k < 26 && c == CAPITALS[k] && d == SMALL[k]
  }

  lemma {:induction false} CapitalAt(c: char)
    ensures |CAPITALS| == |SMALL| == 26 && (c in CAPITALS <==> 'A' <= c <= 'Z')
    ensures 'A' <= c <= 'Z' ==> CAPITALS[c as int - 'A' as int] == c && SMALL[c as int - 'A' as int] == Lower(c)
  {
    hide CAPITALS; hide SMALL;
    Alphabets(0);
    if 'A' <= c <= 'Z' { Alphabets(c as int - 'A' as int); }
    if c in CAPITALS {
      var k :| 0 <= k < |CAPITALS| && CAPITALS[k] == c;
      Alphabets(k);
    }
  }

  lemma {:induction false} LowerIsSmall(c: char)
    ensures SmallFor(c, Lower(c)) && forall d :: SmallFor(c, d) ==> d == Lower(c)
  {
    CapitalAt(c);
    forall d | SmallFor(c, d) ensures d == Lower(c) {
      if c in CAPITALS {
        var k :| 0 <= k < 26 && c == CAPITALS[k] && d == SMALL[k];
        Alphabets(k);
      }
    }
  }

  lemma {:induction false} SameLetter(c: char, d: char)
    ensures Lower(c) == Lower(d) <==> Alike(c, d)
  {
    CapitalAt(c);
    CapitalAt(d);
    if Lower(c) == Lower(d) && c != d {
      var k := if 'A' <= c <= 'Z' then c as int - 'A' as int else d as int - 'A' as int;
      assert Pair(k, c, d);
    }
    if Alike(c, d) && c != d {
      var k :| 0 <= k < 26 && Pair(k, c, d);
      Alphabets(k);
    }
  }

  /** Equal but for the case of letters. */
  ghost predicate AllAlike(u: string, v: string)
  {
    |u| == |v| && forall i :: 0 <= i < |u| ==> Alike(u[i], v[i])
  }

  /** jid_cmp: users may differ in the case of letters, and in nothing else; servers and resources may not differ. */
  lemma {:induction false} SameIff(a: Id, b: Id)
    ensures Same(a, b) <==>
            && a.resource == b.resource && a.server == b.server && a.user.Some? == b.user.Some?
            && (a.user.Some? ==> AllAlike(a.user.value, b.user.value))
  {
    hide Alike; hide Lower;
    if a.user.Some? && b.user.Some? {
      var u, v := a.user.value, b.user.value;
      if |u| == |v| {
        forall i | 0 <= i < |u| ensures Lowered(u)[i] == Lowered(v)[i] <==> Alike(u[i], v[i]) { SameLetter(u[i], v[i]); }
        assert Lowered(u) == Lowered(v) <==> forall i :: 0 <= i < |u| ==> Lowered(u)[i] == Lowered(v)[i];
      } else {
        assert |Lowered(u)| != |Lowered(v)|;
      }
    }
  }

  /** Ids whose users are different letters are different, and both get into a list. */
  lemma {:induction false} LettersDiffer(c: char, d: char, host: string)
    requires c in SMALL && d in SMALL && c != d
    ensures !Same(Id(Some([c]), host, None), Id(Some([d]), host, None))
  {
    hide Lower;
    SameIff(Id(Some([c]), host, None), Id(Some([d]), host, None));
    assert [c][0] == c && [d][0] == d;
    if Alike(c, d) {
      var k :| 0 <= k < 26 && Pair(k, c, d);
      Alphabets(k);
      var i :| 0 <= i < 26 && SMALL[i] == c;
      var j :| 0 <= j < 26 && SMALL[j] == d;
      Alphabets(i);
      Alphabets(j);
    }
  }

  // ---- Reading ----

  /** What an id is written with: "kind:user@host/resource", of which only the host has to be there. */
  datatype Parts = Parts(kind: Option<string>, user: Option<string>, host: string, resource: Option<string>)

  function Written(p: Parts): string
  {
    (if p.kind.Some? then p.kind.value + ":" else "") + (if p.user.Some? then p.user.value + "@" else "") + p.host
    + (if p.resource.Some? then "/" + p.resource.value else "")
  }

  /** Nothing that ends a part is in it. */
  predicate Apart(p: Parts)
  {
    && '/' !in p.host && (p.user.Some? ==> '/' !in p.user.value) && (p.kind.Some? ==> '/' !in p.kind.value)
    && (if p.kind.Some? then ':' !in p.kind.value else ':' !in p.host && (p.user.Some? ==> ':' !in p.user.value))
    && (if p.user.Some? then '@' !in p.user.value else '@' !in p.host)
  }

  predicate LegalHost(host: string)
  {
    0 < |host| <= 255 && forall i :: 0 <= i < |host| ==> host[i] in CAPITALS || host[i] in SMALL || host[i] in HOST_OTHERS
  }

  /** The first 64 bytes: nothing up to the blank, nothing beyond ASCII, and none of eight separators. */
  predicate LegalUser(user: string)
  {
    forall i :: 0 <= i < 64 && i < |user| ==> '!' <= user[i] <= '\U{7F}' && user[i] !in {':', '@', '<', '>', '\'', '\"', '&'}
  }

  lemma {:induction false} HostChar(c: char)
    ensures ServerChar(Lower(c)) <==> c in CAPITALS || c in SMALL || c in HOST_OTHERS
  {
    CapitalAt(c);
    if 'a' <= c <= 'z' { Alphabets(c as int - 'a' as int); assert SMALL[c as int - 'a' as int] == c; }
    if c in SMALL {
      var k :| 0 <= k < 26 && SMALL[k] == c;
      Alphabets(k);
    }
    OtherChar(c);
  }

  lemma {:induction false} OtherChar(c: char)
    ensures c in HOST_OTHERS <==> '0' <= c <= '9' || c == '.' || c == '-' || c == '_'
  {
    assert HOST_OTHERS[0] == '0' && HOST_OTHERS[1] == '1' && HOST_OTHERS[2] == '2' && HOST_OTHERS[3] == '3' && HOST_OTHERS[4] == '4';
    assert HOST_OTHERS[5] == '5' && HOST_OTHERS[6] == '6' && HOST_OTHERS[7] == '7' && HOST_OTHERS[8] == '8' && HOST_OTHERS[9] == '9';
    assert HOST_OTHERS[10] == '.' && HOST_OTHERS[11] == '-' && HOST_OTHERS[12] == '_';
  }

  lemma {:induction false} HostLegal(host: string)
    ensures ServerOk(Lowered(host)) <==> LegalHost(host)
  {
    hide ServerChar; hide Lower;
    forall i | 0 <= i < |host| ensures ServerChar(Lowered(host)[i]) <==> host[i] in CAPITALS || host[i] in SMALL || host[i] in HOST_OTHERS {
      HostChar(host[i]);
    }
  }

  lemma {:induction false} UserByte(c: char)
    ensures UserChar(c) <==> '!' <= c <= '\U{7F}' && c !in {':', '@', '<', '>', '\'', '\"', '&'}
  {
    var s := ":@<>'\"&";
    assert s[0] == ':' && s[1] == '@' && s[2] == '<' && s[3] == '>' && s[4] == '\'' && s[5] == '\"' && s[6] == '&';
  }

  lemma {:induction false} UserLegal(user: string)
    ensures UserOk(Cut(user, 64)) <==> LegalUser(user)
  {
    hide UserChar;
    var cut := Cut(user, 64);
    forall i | 0 <= i < |cut| ensures cut[i] == user[i] && (UserChar(cut[i]) <==> '!' <= user[i] <= '\U{7F}' && user[i] !in {':', '@', '<', '>', '\'', '\"', '&'}) {
      UserByte(user[i]);
    }
  }

  function Filled(part: Option<string>): Option<string> { if part == Some("") then None else part }

  /** jid_new reads an id exactly if host and user are legal: the host in small letters, 64 bytes of the user, and the
      resource as it is; an empty user or resource is none. */
  lemma {:induction false} NewOfParts(p: Parts)
    requires Apart(p) && Written(p) != ""
    ensures var r := New(Written(p));
            && (r.Some? <==> LegalHost(p.host) && (p.user.Some? ==> LegalUser(p.user.value)))
            && (r.Some? ==>
                  && |r.value.server| == |p.host| && (forall i :: 0 <= i < |p.host| ==> SmallFor(p.host[i], r.value.server[i]))
                  && r.value.user == Filled(if p.user.Some? then Some(Cut(p.user.value, 64)) else None)
                  && r.value.resource == Filled(p.resource))
  {
    hide Safe; hide SmallFor; hide Apart;
    ReadsParts(p);
    var user := if p.user.Some? then Filled(p.user) else None;
    SafeIs(Id(user, p.host, Filled(p.resource)));
    if p.user.Some? { UserLegal(p.user.value); }
    HostLegal(p.host);
    forall i | 0 <= i < |p.host| ensures SmallFor(p.host[i], Lowered(p.host)[i]) { LowerIsSmall(p.host[i]); }
  }

  lemma {:induction false} SafeIs(id: Id)
    ensures var r := Safe(id);
            && (r.Some? <==> ServerOk(Lowered(id.server)) && (id.user.Some? ==> UserOk(Cut(id.user.value, 64))))
            && (r.Some? ==> r.value == Id(if id.user.Some? then Some(Cut(id.user.value, 64)) else None, Lowered(id.server), id.resource))
  {
    hide ServerOk; hide UserOk; hide Lowered;
  }

  function AddressIn(p: Parts): string { (if p.user.Some? then p.user.value + "@" else "") + p.host }

  function HeadIn(p: Parts): string { (if p.kind.Some? then p.kind.value + ":" else "") + AddressIn(p) }

  lemma {:induction false} Layers(p: Parts)
    ensures Written(p) == if p.resource.Some? then HeadIn(p) + ['/'] + p.resource.value else HeadIn(p)
    ensures HeadIn(p) == if p.kind.Some? then p.kind.value + [':'] + AddressIn(p) else AddressIn(p)
    ensures AddressIn(p) == if p.user.Some? then p.user.value + ['@'] + p.host else p.host
  {
  }

  lemma {:induction false} NothingInside(p: Parts)
    requires Apart(p)
    ensures '/' !in HeadIn(p) && (p.kind == None ==> ':' !in AddressIn(p))
  {
  }

  /** A search for what separates `a` from `b`. */
  lemma {:induction false} Separated(s: string, c: char, a: string, b: Option<string>)
    requires c !in a && s == if b.Some? then a + [c] + b.value else a
    ensures Find(s, c) == |a| && s[..|a|] == a && (|a| < |s| <==> b.Some?) && (b.Some? ==> s[|a| + 1..] == b.value)
  {
    hide Find;
    if b.Some? { FoundAt(s, c, a, b.value); } else { NotFound(s, c); }
  }

  lemma {:induction false} AddressRead(p: Parts)
    requires Apart(p)
    ensures Address(Written(p)) == AddressIn(p)
  {
    hide Find; hide Apart; hide Written; hide HeadIn; hide AddressIn;
    Layers(p);
    NothingInside(p);
    Separated(Written(p), '/', HeadIn(p), p.resource);
    if p.kind.Some? {
      KindApart(p);
      Separated(HeadIn(p), ':', p.kind.value, Some(AddressIn(p)));
    } else {
      Separated(HeadIn(p), ':', HeadIn(p), None);
    }
  }

  lemma {:induction false} KindApart(p: Parts)
    requires Apart(p)
    ensures p.kind.Some? ==> ':' !in p.kind.value
    ensures if p.user.Some? then '@' !in p.user.value else '@' !in p.host
  {
  }

  /** The searches for "/", ":" and "@" find the parts. */
  lemma {:induction false} ReadsParts(p: Parts)
    requires Apart(p) && Written(p) != ""
    ensures New(Written(p)) == Safe(Id(if p.user.Some? then Filled(p.user) else None, p.host, Filled(p.resource)))
  {
    hide Safe; hide Find; hide Address; hide Apart; hide Written; hide HeadIn; hide AddressIn;
    Layers(p);
    NothingInside(p);
    KindApart(p);
    AddressRead(p);
    Separated(Written(p), '/', HeadIn(p), p.resource);
    if p.user.Some? {
      Separated(AddressIn(p), '@', p.user.value, Some(p.host));
    } else {
      Separated(AddressIn(p), '@', AddressIn(p), None);
    }
  }

  lemma {:induction false} Divided(s: string, c: char)
    ensures var n := Find(s, c); c !in s[..n] && (n < |s| ==> s == s[..n] + [c] + s[n + 1..]) && (n == |s| ==> s[..n] == s)
  {
    hide Find;
  }

  /** Every text is written so. */
  lemma {:induction false} AnyText(s: string) returns (p: Parts)
    ensures Apart(p) && Written(p) == s
  {
    hide Find; hide Written; hide HeadIn; hide AddressIn;
    var slash := Find(s, '/');
    var head := s[..slash];
    var colon := Find(head, ':');
    var address := if colon < |head| then head[colon + 1..] else head;
    var at := Find(address, '@');
    Divided(s, '/');
    Divided(head, ':');
    Divided(address, '@');
    p := Parts(if colon < |head| then Some(head[..colon]) else None, if at < |address| then Some(address[..at]) else None,
               if at < |address| then address[at + 1..] else address, if slash < |s| then Some(s[slash + 1..]) else None);
    Layers(p);
    AllApart(head, colon, address, at, p);
  }

  lemma {:induction false} AllApart(head: string, colon: nat, address: string, at: nat, p: Parts)
    requires '/' !in head && colon == Find(head, ':') && address == (if colon < |head| then head[colon + 1..] else head) && at == Find(address, '@')
    requires p.kind == (if colon < |head| then Some(head[..colon]) else None) && p.user == (if at < |address| then Some(address[..at]) else None)
    requires p.host == if at < |address| then address[at + 1..] else address
    ensures Apart(p)
  {
    hide Find;
    assert forall c :: c in address ==> c in head;
    assert forall c :: c in p.host ==> c in address;
  }
}
