/**
 * A stand-in for the hosted `chat_history` table, giving the selects the provider
 * issues their meaning: keep the rows of one user (and, for a search, those whose
 * title is ILIKE the pattern), newest `updated_at` first.
 */
module ChatStore {
  import opened ChatHistory

  /** ASCII case folding: ILIKE compares lower-cased text with a lower-cased pattern. */
  function LowerChar(c: char): char
  {
    if 'A' <= c <= 'Z' then (c as int + 32) as char else c
  }

  function Lower(s: string): (r: string)
    ensures |r| == |s| && forall i :: 0 <= i < |s| ==> r[i] == LowerChar(s[i])
  {
    seq(|s|, i requires 0 <= i < |s| => LowerChar(s[i]))
  }

  /** Folding leaves no upper-case ASCII letter, changes nothing else, and folding twice
      is folding once. */
  lemma LowerFolds(s: string)
    ensures forall i :: 0 <= i < |s| ==> !('A' <= Lower(s)[i] <= 'Z')
    ensures forall i :: 0 <= i < |s| && !('A' <= s[i] <= 'Z') ==> Lower(s)[i] == s[i]
    ensures Lower(Lower(s)) == Lower(s)
  {
    var l := Lower(s);
    forall i | 0 <= i < |s| ensures LowerChar(l[i]) == l[i] {
      if 'A' <= s[i] <= 'Z' {
        assert l[i] as int == s[i] as int + 32;
      }
    }
    assert Lower(l) == l;
  }

  /** Two titles that differ only in ASCII case are kept or dropped together. */
  lemma ILikeIgnoresCase(t: string, u: string, p: string)
    requires |t| == |u| && forall i :: 0 <= i < |t| ==> LowerChar(t[i]) == LowerChar(u[i])
    ensures ILike(t, p) <==> ILike(u, p)
  {
    assert Lower(t) == Lower(u);
  }

  /** PostgREST reads `*` in a like or ilike value as `%`. */
  function StarsAsPercent(p: string): (r: string)
    ensures |r| == |p|
    ensures forall i :: 0 <= i < |p| ==> r[i] == if p[i] == '*' then '%' else p[i]
  {
    if p == [] then []
    else [if p[0] == '*' then '%' else p[0]] + StarsAsPercent(p[1..])
  }

  /** LIKE: `%` matches any run of characters, `_` any one character, a backslash makes
      the next character literal; everything else matches itself. */
  predicate Like(t: string, p: string)
    decreases |p| + |t|
  {
    if p == [] then t == []
    else if p[0] == '%' then Like(t, p[1..]) || (t != [] && Like(t[1..], p))
    else if t == [] then false
    else if p[0] == '_' then Like(t[1..], p[1..])
    else if p[0] == '\\' && |p| >= 2 then t[0] == p[1] && Like(t[1..], p[2..])
    else t[0] == p[0] && Like(t[1..], p[1..])
  }

  predicate ILike(t: string, p: string)
  {
    Like(Lower(t), Lower(p))
  }

  /** Text in which LIKE sees no special character. */
  predicate Plain(q: string)
  {
    forall i :: 0 <= i < |q| ==> q[i] != '%' && q[i] != '_' && q[i] != '\\'
  }

  /** `q` occurs somewhere in `t`. */
  predicate Contains(t: string, q: string)
  {
    exists i :: 0 <= i <= |t| && OccursAt(t, q, i)
  }

  /** `q` occurs in `t` starting at index `i`. */
  predicate OccursAt(t: string, q: string, i: int)
  {
    0 <= i && i + |q| <= |t| && t[i..i + |q|] == q
  }

  /** The rows a query keeps, before ordering. */
  predicate Selects(q: Query, c: ChatRecord)
  {
    match q
    case OwnedBy(u) => c.userId == u
    case TitleLike(u, pattern) => c.userId == u && ILike(c.title, StarsAsPercent(pattern))
  }

  function Filter(table: seq<ChatRecord>, q: Query): (r: seq<ChatRecord>)
    ensures forall c :: multiset(r)[c] == if Selects(q, c) then multiset(table)[c] else 0
  {
    if table == [] then []
    else
      assert table == [table[0]] + table[1..];
      (if Selects(q, table[0]) then [table[0]] else []) + Filter(table[1..], q)
  }

  predicate NewestFirst(rows: seq<ChatRecord>)
  {
    forall i, j :: 0 <= i < j < |rows| ==> rows[i].updatedAt >= rows[j].updatedAt
  }

  function InsertByUpdated(c: ChatRecord, rows: seq<ChatRecord>): (r: seq<ChatRecord>)
    requires NewestFirst(rows)
    ensures NewestFirst(r) && multiset(r) == multiset(rows) + multiset{c}
    ensures forall x :: x in r ==> x == c || x in rows
  {
    if rows == [] || c.updatedAt >= rows[0].updatedAt then [c] + rows
    else
      var rest := InsertByUpdated(c, rows[1..]);
      assert rows == [rows[0]] + rows[1..];
      assert forall x :: x in rows[1..] ==> rows[0].updatedAt >= x.updatedAt;
      [rows[0]] + rest
  }

  function SortNewestFirst(rows: seq<ChatRecord>): (r: seq<ChatRecord>)
    ensures NewestFirst(r) && multiset(r) == multiset(rows)
  {
    if rows == [] then []
    else
      assert rows == [rows[0]] + rows[1..];
      InsertByUpdated(rows[0], SortNewestFirst(rows[1..]))
  }

  /** What the table answers to a select. Rows with equal `updated_at` may come back in
      any order; this is one of the orders. */
  function Select(table: seq<ChatRecord>, q: Query): seq<ChatRecord>
  {
    SortNewestFirst(Filter(table, q))
  }

  /** A select returns exactly the rows the query keeps, each as often as the table holds
      it, newest first. */
  lemma SelectSpec(table: seq<ChatRecord>, q: Query)
    ensures NewestFirst(Select(table, q))
    ensures forall c :: c in Select(table, q) <==> c in table && Selects(q, c)
    ensures forall c :: multiset(Select(table, q))[c] == if Selects(q, c) then multiset(table)[c] else 0
  {
    var r := Select(table, q);
    forall c ensures c in r <==> c in table && Selects(q, c) {
      assert c in r <==> c in multiset(r);
      assert c in table <==> c in multiset(table);
    }
  }

  /** A deleted chat is gone from the next listing. */
  lemma DeletedChatNotListed(table: seq<ChatRecord>, id: string, userId: string)
    ensures forall c :: c in Select(RemoveById(table, id), OwnedBy(userId)) ==> c.id != id
  {
    SelectSpec(RemoveById(table, id), OwnedBy(userId));
  }

  lemma {:induction false} LikePercentMatchesAll(t: string)
    ensures Like(t, "%")
  {
    if t != [] {
      LikePercentMatchesAll(t[1..]);
    }
  }

  /** For plain `q`, `q%` matches exactly the texts that start with `q`. */
  lemma {:induction false} LikePrefix(t: string, q: string)
    requires Plain(q)
    ensures Like(t, q + "%") <==> |q| <= |t| && t[..|q|] == q
  {
    if q == [] {
      assert q + "%" == "%";
      LikePercentMatchesAll(t);
    } else if t != [] {
      assert (q + "%")[0] == q[0] && (q + "%")[1..] == q[1..] + "%";
      LikePrefix(t[1..], q[1..]);
      if |q| <= |t| {
        assert t[..|q|] == [t[0]] + t[1..][..|q| - 1];
        assert q == [q[0]] + q[1..];
      }
    }
  }

  /** A leading `%` lets the rest of the pattern match any suffix. */
  lemma {:induction false} LikeLeadingPercent(t: string, p: string)
    ensures Like(t, "%" + p) <==> exists i :: 0 <= i <= |t| && Like(t[i..], p)
  {
    assert ("%" + p)[0] == '%' && ("%" + p)[1..] == p;
    assert t[0..] == t;
    if t != [] {
      LikeLeadingPercent(t[1..], p);
      if exists i :: 0 <= i <= |t| && Like(t[i..], p) {
        var i :| 0 <= i <= |t| && Like(t[i..], p);
        if i > 0 {
          assert t[1..][i - 1..] == t[i..];
        }
      }
      if exists i :: 0 <= i <= |t[1..]| && Like(t[1..][i..], p) {
        var i :| 0 <= i <= |t[1..]| && Like(t[1..][i..], p);
        assert t[1..][i..] == t[i + 1..];
      }
    }
  }

  /** For plain `q`, LIKE `%q%` is substring search. */
  lemma LikeContains(t: string, q: string)
    requires Plain(q)
    ensures Like(t, "%" + q + "%") <==> Contains(t, q)
  {
    assert "%" + q + "%" == "%" + (q + "%");
    LikeLeadingPercent(t, q + "%");
    if Contains(t, q) {
      var i :| 0 <= i <= |t| && OccursAt(t, q, i);
      LikePrefix(t[i..], q);
      assert t[i..][..|q|] == t[i..i + |q|];
    }
    if exists i :: 0 <= i <= |t| && Like(t[i..], q + "%") {
      var i :| 0 <= i <= |t| && Like(t[i..], q + "%");
      LikePrefix(t[i..], q);
      assert t[i..][..|q|] == t[i..i + |q|];
      assert OccursAt(t, q, i);
    }
  }

  /** A search for text without `%`, `_`, `*` or a backslash keeps the user's rows whose
      title contains the query, ignoring ASCII case. */
  lemma SearchIsCaseInsensitiveSubstring(c: ChatRecord, userId: string, query: string)
    requires Plain(query) && '*' !in query
    ensures Selects(TitleLike(userId, SearchPattern(query)), c) <==>
            c.userId == userId && Contains(Lower(c.title), Lower(query))
  {
    var lq := Lower(query);
    assert StarsAsPercent(SearchPattern(query)) == SearchPattern(query);
    assert Lower(SearchPattern(query)) == "%" + lq + "%";
    assert Plain(lq);
    LikeContains(Lower(c.title), lq);
  }

  /** `_` is not escaped: searching for "_" keeps every titled row of the user, whether or
      not its title holds an underscore. */
  lemma UnderscoreSearchMatchesAnyTitle(c: ChatRecord, userId: string)
    requires c.userId == userId && c.title != []
    ensures Selects(TitleLike(userId, SearchPattern("_")), c)
  {
    var t := Lower(c.title);
    assert StarsAsPercent(SearchPattern("_")) == "%_%";
    assert Lower("%_%") == "%_%";
    assert Like(t[1..], "%") by { LikePercentMatchesAll(t[1..]); }
    assert Like(t, "_%");
    assert "%_%"[1..] == "_%";
  }

  /** `%` is not escaped either: searching for "%" keeps every row of the user. */
  lemma PercentSearchMatchesAll(c: ChatRecord, userId: string)
    requires c.userId == userId
    ensures Selects(TitleLike(userId, SearchPattern("%")), c)
  {
    var t := Lower(c.title);
    assert StarsAsPercent(SearchPattern("%")) == "%%%";
    assert Lower("%%%") == "%%%";
    LikePercentMatchesAll(t);
    assert "%%%"[1..] == "%%" && "%%"[1..] == "%";
  }

  /** `*` is rewritten to `%`: searching "*" keeps every row of the user. */
  lemma StarSearchIsWildcard(c: ChatRecord, userId: string)
    requires c.userId == userId
    ensures Selects(TitleLike(userId, SearchPattern("*")), c)
  {
    var t := Lower(c.title);
    assert StarsAsPercent(SearchPattern("*")) == "%%%";
    assert Lower("%%%") == "%%%";
    LikePercentMatchesAll(t);
    assert "%%%"[1..] == "%%" && "%%"[1..] == "%";
  }

  /** A trailing `*` adds nothing: for text without `%`, `_`, `*` or a backslash, searching
      `q*` keeps exactly the user's rows whose title contains `q`, ignoring ASCII case. */
  lemma StarSuffixSearch(c: ChatRecord, userId: string, query: string)
    requires Plain(query) && '*' !in query
    ensures Selects(TitleLike(userId, SearchPattern(query + "*")), c) <==>
            c.userId == userId && Contains(Lower(c.title), Lower(query))
  {
    var t, lq := Lower(c.title), Lower(query);
    assert StarsAsPercent(SearchPattern(query + "*")) == "%" + query + "%%";
    assert Lower("%" + query + "%%") == "%" + (lq + "%%");
    assert Plain(lq);
    LikeLeadingPercent(t, lq + "%%");
    LikeLeadingPercent(t, lq + "%");
    forall i | 0 <= i <= |t| ensures Like(t[i..], lq + "%%") <==> Like(t[i..], lq + "%") {
      LikeDoublePercent(t[i..], lq);
    }
    assert "%" + lq + "%" == "%" + (lq + "%");
    LikeContains(t, lq);
  }

  /** For plain `q`, `q%%` matches what `q%` does. */
  lemma {:induction false} LikeDoublePercent(t: string, q: string)
    requires Plain(q)
    ensures Like(t, q + "%%") <==> Like(t, q + "%")
  {
    if q == [] {
      assert q + "%%" == "%%" && q + "%" == "%";
      assert "%%"[1..] == "%";
      LikePercentMatchesAll(t);
    } else if t != [] {
      assert (q + "%%")[0] == q[0] && (q + "%%")[1..] == q[1..] + "%%";
      assert (q + "%")[0] == q[0] && (q + "%")[1..] == q[1..] + "%";
      LikeDoublePercent(t[1..], q[1..]);
    }
  }
}
