/**
 Words: the runs of other characters between spaces, and the string under
 construction of appendAttributeValue in libjabber/xmlparse.c, which takes no
 space behind a space unless the attribute has the type CDATA.
 */
module XmlPool {
  import opened XmlValue

  // ---- Words ----

  /** Where the first word of a text ends. */
  function WordEnd(s: string): (n: nat)
    ensures n <= |s| && ' ' !in s[..n] && (n < |s| ==> s[n] == ' ')
  {
    if s == "" || s[0] == ' ' then 0 else 1 + WordEnd(s[1..])
  }

  /** The runs of other characters between spaces. */
  function Words(s: string): (l: seq<string>)
    decreases |s|
  {
    if s == "" then []
    else if s[0] == ' ' then Words(s[1..])
    else [s[..WordEnd(s)]] + Words(s[WordEnd(s)..])
  }

  function Spaced(l: seq<string>): string
  {
    if l == [] then "" else if |l| == 1 then l[0] else l[0] + " " + Spaced(l[1..])
  }

  /** The value for the type. */
  function Typed(isCdata: bool, text: string): string { if isCdata then text else Spaced(Words(text)) }

  // ---- What the pool holds ----

  /** Characters put into the pool one by one, but no space behind a space. */
  function Squeeze(pool: string, s: string): string
    decreases |s|
  {
    if s == "" then pool else Squeeze(if s[0] == ' ' && EndsInSpace(pool) then pool else pool + [s[0]], s[1..])
  }

  lemma {:induction false} SqueezeConcat(pool: string, a: string, b: string)
    ensures Squeeze(pool, a + b) == Squeeze(Squeeze(pool, a), b)
    decreases |a|
  {
    if a == "" {
      assert a + b == b;
    } else {
      assert (a + b)[0] == a[0] && (a + b)[1..] == a[1..] + b;
      SqueezeConcat(if a[0] == ' ' && EndsInSpace(pool) then pool else pool + [a[0]], a[1..], b);
    }
  }

  lemma {:induction false} SqueezeSolid(pool: string, a: string)
    requires ' ' !in a
    ensures Squeeze(pool, a) == pool + a
    decreases |a|
  {
    if a == "" {
      assert pool + a == pool;
    } else {
      SqueezeSolid(pool + [a[0]], a[1..]);
      assert pool + [a[0]] + a[1..] == pool + a;
    }
  }

  lemma {:induction false} SqueezeSpace(pool: string)
    ensures Squeeze(pool, " ") == AppendSpace(false, pool)
  {
    assert " "[1..] == "";
  }

  /** Text put into the pool, for a type. */
  function Put(isCdata: bool, pool: string, s: string): string { if isCdata then pool + s else Squeeze(pool, s) }

  lemma {:induction false} PutConcat(isCdata: bool, pool: string, a: string, b: string)
    ensures Put(isCdata, pool, a + b) == Put(isCdata, Put(isCdata, pool, a), b) && Put(isCdata, pool, "") == pool
  {
    if isCdata { assert pool + (a + b) == pool + a + b && pool + "" == pool; } else { SqueezeConcat(pool, a, b); SqueezeSolid(pool, ""); }
  }

  lemma {:induction false} PutSolid(isCdata: bool, pool: string, a: string)
    requires ' ' !in a
    ensures Put(isCdata, pool, a) == pool + a
  {
    if !isCdata { SqueezeSolid(pool, a); }
  }

  lemma {:induction false} PutSpace(isCdata: bool, pool: string)
    ensures Put(isCdata, pool, " ") == AppendSpace(isCdata, pool)
  {
    if !isCdata { SqueezeSpace(pool); }
  }

  // ---- Words in the pool ----

  /** The pool when a text has been squeezed: words with one space between them, and one behind if the text goes on with one. */
  lemma {:induction false} SqueezedWords(s: string)
    ensures var p := Squeeze("", s); Spaced(Words(s)) == (if p != "" && p[|p| - 1] == ' ' then p[..|p| - 1] else p)
    decreases |s|
  {
    if s != "" && s[0] == ' ' {
      SqueezedWords(s[1..]);
    } else if s != "" {
      var n := WordEnd(s);
      var a, b := s[..n], s[n..];
      assert s == a + b;
      SqueezeConcat("", a, b);
      SqueezeSolid("", a);
      assert "" + a == a;
      WordInFront(a, b);
    }
  }

  /** Behind a word. */
  lemma {:induction false} WordInFront(a: string, b: string)
    requires a != "" && ' ' !in a && (b != "" ==> b[0] == ' ')
    ensures var p := Squeeze(a, b); Spaced([a] + Words(b)) == (if p != "" && p[|p| - 1] == ' ' then p[..|p| - 1] else p)
    decreases |b|
  {
    if b == "" {
      assert [a] + [] == [a];
    } else {
      AfterSpace(a, b[1..]);
    }
  }

  /** Behind a word and a space. */
  lemma {:induction false} AfterSpace(a: string, b: string)
    requires a != "" && ' ' !in a
    ensures var p := Squeeze(a + " ", b); Spaced([a] + Words(b)) == (if p != "" && p[|p| - 1] == ' ' then p[..|p| - 1] else p)
    decreases |b|
  {
    if b == "" {
      assert [a] + [] == [a];
    } else if b[0] == ' ' {
      AfterSpace(a, b[1..]);
    } else {
      var n := WordEnd(b);
      var c, d := b[..n], b[n..];
      assert b == c + d;
      SqueezeConcat(a + " ", c, d);
      SqueezeSolid(a + " ", c);
      SecondWord(a, c, d);
    }
  }

  lemma {:induction false} SecondWord(a: string, c: string, d: string)
    requires a != "" && ' ' !in a && c != "" && ' ' !in c && (d != "" ==> d[0] == ' ')
    ensures var p := Squeeze(a + " " + c, d); Spaced([a] + ([c] + Words(d))) == (if p != "" && p[|p| - 1] == ' ' then p[..|p| - 1] else p)
    decreases |d|, 0
  {
    hide Words;
    if d == "" {
      NoWords();
      assert [a] + ([c] + []) == [a, c] && [a, c][1..] == [c];
    } else {
      AfterSpace(c, d[1..]);
      WordsBehindSpace(d);
      SqueezeBehind(a + " ", c + " ", d[1..]);
      assert a + " " + c + " " == a + " " + (c + " ");
      SpacedFirst(a, [c] + Words(d[1..]));
    }
  }

  lemma {:induction false} NoWords()
    ensures Words("") == []
  {
  }

  lemma {:induction false} WordsBehindSpace(d: string)
    requires d != "" && d[0] == ' '
    ensures Words(d) == Words(d[1..])
  {
  }

  lemma {:induction false} SpacedFirst(a: string, l: seq<string>)
    requires l != []
    ensures Spaced([a] + l) == a + " " + Spaced(l)
  {
    assert ([a] + l)[1..] == l;
  }

  lemma {:induction false} SqueezeBehind(front: string, pool: string, s: string)
    requires pool != ""
    ensures Squeeze(front + pool, s) == front + Squeeze(pool, s) && Squeeze(pool, s) != ""
    decreases |s|
  {
    if s != "" {
      var pool' := if s[0] == ' ' && EndsInSpace(pool) then pool else pool + [s[0]];
      assert front + pool + [s[0]] == front + (pool + [s[0]]);
      SqueezeBehind(front, pool', s[1..]);
    }
  }

  /** storeAttributeValue takes one space off the end. */
  lemma {:induction false} PutTyped(isCdata: bool, s: string)
    ensures var p := Put(isCdata, "", s);
            Typed(isCdata, s) == if !isCdata && p != "" && EndsInSpace(p) then p[..|p| - 1] else p
  {
    if isCdata { assert "" + s == s; } else { SqueezedWords(s); }
  }
}
