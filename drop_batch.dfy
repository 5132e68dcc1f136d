/** The batched statement clearDatabase sends in one pass: one cascading drop per
    listed table, concatenated. The database executes such a batch by reading it back
    statement by statement (ParseDropBatch), which is the inverse of building it. */
module DropQuery {
  import opened Seqs
  import opened Outcomes

  const Prefix: string := "DROP TABLE "
  const Suffix: string := " CASCADE;"

  /** Characters of a plain (unquoted, already case-folded) SQL identifier. */
  predicate IsIdentifierChar(c: char)
  {
    ('a' <= c <= 'z') || ('0' <= c <= '9') || c == '_'
  }

  /** A name that can be written into a statement without quoting. */
  predicate IsIdentifier(s: string)
  {
    |s| > 0 && !('0' <= s[0] <= '9') && forall i :: 0 <= i < |s| ==> IsIdentifierChar(s[i])
  }

  predicate AllIdentifiers(ts: seq<string>)
  {
    forall i :: 0 <= i < |ts| ==> IsIdentifier(ts[i])
  }

  /** `DROP TABLE t CASCADE;` */
  function DropStatement(t: string): string
  {
    Prefix + t + Suffix
  }

  /** The concatenation of DropStatement(t) for every t of ts, in order. */
  function DropBatch(ts: seq<string>): (q: string)
    ensures q == "" <==> ts == []
    ensures |q| >= |ts|
  {
    if ts == [] then "" else DropStatement(ts[0]) + DropBatch(ts[1..])
  }

  lemma {:induction false} DropBatchAppend(a: seq<string>, b: seq<string>)
    ensures DropBatch(a + b) == DropBatch(a) + DropBatch(b)
  {
    if a == [] {
      assert a + b == b;
    } else {
      assert (a + b)[1..] == a[1..] + b;
      DropBatchAppend(a[1..], b);
    }
  }

  lemma DropBatchCons(t: string, rest: seq<string>)
    ensures DropBatch([t] + rest) == DropStatement(t) + DropBatch(rest)
  {
    assert ([t] + rest)[1..] == rest;
  }

  /** The loop of clearDatabase that accumulates the batch, one statement per table. */
  method BuildDropQuery(ts: seq<string>) returns (q: string)
    ensures q == DropBatch(ts)
  {
    q := "";
    for i := 0 to |ts|
      invariant q == DropBatch(ts[..i])
    {
      assert ts[..i + 1] == ts[..i] + [ts[i]];
      DropBatchAppend(ts[..i], [ts[i]]);
      q := q + DropStatement(ts[i]);
    }
    assert ts[..|ts|] == ts;
  }

  /** Reads one statement `DROP TABLE t CASCADE;` back into t. */
  function ParseDropStatement(s: string): (r: Option<string>)
    ensures r.Some? ==> IsIdentifier(r.value) && s == DropStatement(r.value)
  {
    if |Prefix| + |Suffix| <= |s| && s[..|Prefix|] == Prefix && s[|s| - |Suffix|..] == Suffix
       && IsIdentifier(s[|Prefix|..|s| - |Suffix|])
    then
      assert s == s[..|Prefix|] + s[|Prefix|..|s| - |Suffix|] + s[|s| - |Suffix|..];
      Some(s[|Prefix|..|s| - |Suffix|])
    else None
  }

  /** Splits a batch at each `;` and reads every statement; None when some piece is
      not a cascading drop of a plain identifier (the database reports a syntax error). */
  function ParseDropBatch(q: string): (r: Option<seq<string>>)
    decreases |q|
  {
    if q == [] then Some([])
    else
      var k := IndexOf(q, ';');
      if k == -1 then None
      else
        match (ParseDropStatement(q[..k + 1]), ParseDropBatch(q[k + 1..]))
        case (Some(t), Some(rest)) => Some([t] + rest)
        case _ => None
  }

  /** Whatever the database reads out of a batch is a list of plain identifiers whose
      batch is that very text. */
  lemma {:induction false} ParseDropBatchSound(q: string)
    ensures ParseDropBatch(q).Some? ==> AllIdentifiers(ParseDropBatch(q).value)
                                        && q == DropBatch(ParseDropBatch(q).value)
    decreases |q|
  {
    if q != [] {
      var k := IndexOf(q, ';');
      if k != -1 {
        var head := ParseDropStatement(q[..k + 1]);
        var tail := ParseDropBatch(q[k + 1..]);
        ParseDropBatchSound(q[k + 1..]);
        if head.Some? && tail.Some? {
          DropBatchCons(head.value, tail.value);
          assert q == q[..k + 1] + q[k + 1..];
          var ts := [head.value] + tail.value;
          assert ts[0] == head.value;
          assert forall i :: 1 <= i < |ts| ==> ts[i] == tail.value[i - 1];
        }
      }
    }
  }

  /** The only `;` in a drop statement of an identifier is its last character. */
  lemma SemicolonOnlyAtEnd(t: string)
    requires IsIdentifier(t)
    ensures DropStatement(t)[|DropStatement(t)| - 1] == ';'
    ensures ';' !in DropStatement(t)[..|DropStatement(t)| - 1]
  {
    var s := DropStatement(t);
    assert s[..|s| - 1] == Prefix + t + " CASCADE";
    assert forall j :: 0 <= j < |t| ==> t[j] != ';';
    assert ';' !in Prefix;
    assert ';' !in " CASCADE";
  }

  /** In a batch that starts with the drop of an identifier, the first `;` closes it. */
  lemma FirstSemicolon(t: string, rest: string)
    requires IsIdentifier(t)
    ensures IndexOf(DropStatement(t) + rest, ';') == |DropStatement(t)| - 1
  {
    var s := DropStatement(t);
    var q := s + rest;
    SemicolonOnlyAtEnd(t);
    assert q[|s| - 1] == ';';
    assert q[..|s| - 1] == s[..|s| - 1];
  }

  lemma ParseDropStatementInverts(t: string)
    requires IsIdentifier(t)
    ensures ParseDropStatement(DropStatement(t)) == Some(t)
  {
    var s := DropStatement(t);
    assert s[..|Prefix|] == Prefix;
    assert s[|s| - |Suffix|..] == Suffix;
    assert s[|Prefix|..|s| - |Suffix|] == t;
  }

  /** Reading a batch that starts with the drop of an identifier t yields t, followed by
      what the rest of the batch yields. */
  lemma ParseDropBatchStep(t: string, rest: string)
    requires IsIdentifier(t)
    ensures ParseDropBatch(DropStatement(t) + rest)
            == (if ParseDropBatch(rest).Some? then Some([t] + ParseDropBatch(rest).value) else None)
  {
    var s := DropStatement(t);
    var q := s + rest;
    FirstSemicolon(t, rest);
    assert q[..|s|] == s && q[|s|..] == rest;
    ParseDropStatementInverts(t);
  }

  /** Building a batch from plain identifiers and reading it back gives the same list. */
  lemma {:induction false} ParseDropBatchInverts(ts: seq<string>)
    requires AllIdentifiers(ts)
    ensures ParseDropBatch(DropBatch(ts)) == Some(ts)
  {
    if ts != [] {
      assert AllIdentifiers(ts[1..]) by {
        forall i | 0 <= i < |ts| - 1 ensures IsIdentifier(ts[1..][i]) {
          assert ts[1..][i] == ts[i + 1];
        }
      }
      ParseDropBatchInverts(ts[1..]);
      DropBatchCons(ts[0], ts[1..]);
      assert [ts[0]] + ts[1..] == ts;
      ParseDropBatchStep(ts[0], DropBatch(ts[1..]));
    }
  }

  /** Reading a batch succeeds exactly on the batches built from plain identifiers. */
  lemma ParseDropBatchExact(q: string, ts: seq<string>)
    ensures ParseDropBatch(q) == Some(ts) <==> AllIdentifiers(ts) && q == DropBatch(ts)
  {
    ParseDropBatchSound(q);
    if AllIdentifiers(ts) && q == DropBatch(ts) {
      ParseDropBatchInverts(ts);
    }
  }
}
