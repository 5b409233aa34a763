/** The key under which the decision memo files a question. */
module MemoKey {
  import opened Common
  import opened Text

  const SEPARATOR := '\U{001F}'
  const ABSENT := "\U{0000}"

  datatype Question = Question(
    action: string, resourceId: string, scope: Option<string>, subjectId: Option<string>,
    actingTenantId: Option<string>)

  function Field(part: Option<string>): string {
    match part
    case Some(value) => value
    case None => ABSENT
  }

  function Fields(q: Question): seq<string> {
    [Field(q.subjectId), q.resourceId, q.action, Field(q.scope), Field(q.actingTenantId)]
  }

  function MemoKey(q: Question): string {
    Join(Fields(q), SEPARATOR)
  }

  predicate SeparatorFree(q: Question) {
    forall i :: 0 <= i < |Fields(q)| ==> '\U{001F}' !in Fields(q)[i]
  }

  /** A present optional part that is not the mark of an absent one. */
  predicate Unmistakable(part: Option<string>) {
    part.Some? ==> part.value != "\U{0000}"
  }

  predicate MarkFree(q: Question) {
    Unmistakable(q.scope) && Unmistakable(q.subjectId) && Unmistakable(q.actingTenantId)
  }

  function OrNul(part: Option<string>): string {
    if part.Some? then part.value else "\U{0000}"
  }

  /**
   * Read back at the unit separators, U+001F, the key is the subject, the resource, the action, the
   * scope and the tenant, with U+0000 for each that is absent.
   */
  lemma KeyReadsBack(q: Question)
    requires SeparatorFree(q)
    ensures Split(MemoKey(q), '\U{001F}') ==
            [OrNul(q.subjectId), q.resourceId, q.action, OrNul(q.scope), OrNul(q.actingTenantId)]
  {
    SplitJoin(Fields(q), SEPARATOR);
  }

  /** Without separators inside, keys agree exactly when all five fields do. */
  lemma KeysAgreeIffFieldsDo(p: Question, q: Question)
    requires SeparatorFree(p) && SeparatorFree(q)
    ensures MemoKey(p) == MemoKey(q) <==> Fields(p) == Fields(q)
  {
    SplitJoin(Fields(p), SEPARATOR);
    SplitJoin(Fields(q), SEPARATOR);
  }

  /** Different questions have different keys, an absent part differing from every present one. */
  lemma MemoKeyInjective(p: Question, q: Question)
    requires SeparatorFree(p) && SeparatorFree(q) && MarkFree(p) && MarkFree(q)
    requires MemoKey(p) == MemoKey(q)
    ensures p == q
  {
    KeysAgreeIffFieldsDo(p, q);
    assert Fields(p)[0] == Fields(q)[0] && Fields(p)[1] == Fields(q)[1] && Fields(p)[2] == Fields(q)[2]
        && Fields(p)[3] == Fields(q)[3] && Fields(p)[4] == Fields(q)[4];
  }

  ghost predicate HasTwin(q: Question) {
    exists p :: p != q && MemoKey(p) == MemoKey(q)
  }

  predicate AllPartsPresent(q: Question) {
    q.scope.Some? && q.subjectId.Some? && q.actingTenantId.Some?
  }

  /**
   * Among all questions, one shares its key with none exactly when no field holds the separator
   * and every optional part is present and is not the mark of absence.
   */
  lemma OwnKeyIff(q: Question)
    ensures !HasTwin(q) <==> SeparatorFree(q) && MarkFree(q) && AllPartsPresent(q)
  {
    if SeparatorFree(q) {
      if MarkFree(q) && AllPartsPresent(q) {
        forall p | MemoKey(p) == MemoKey(q)
          ensures p == q
        {
          SameKeySameFields(p, q);
        }
      } else {
        MarkTwin(q);
      }
    } else {
      SeparatorTwin(q);
    }
  }

  /** A separator-free question forces the fields of whatever has its key. */
  lemma SameKeySameFields(p: Question, q: Question)
    requires SeparatorFree(q) && MemoKey(p) == MemoKey(q)
    ensures Fields(p) == Fields(q)
    ensures MarkFree(q) && AllPartsPresent(q) ==> p == q
  {
    SplitJoin(Fields(q), SEPARATOR);
    FiveFieldsFromFive(Fields(p));
    var f, g := Fields(p), Fields(q);
    assert f[0] == g[0] && f[1] == g[1] && f[2] == g[2] && f[3] == g[3] && f[4] == g[4];
  }

  lemma {:induction false} SplitNeverMerges(parts: seq<string>, c: char)
    requires parts != []
    ensures |Split(Join(parts, c), c)| >= |parts|
    ensures |Split(Join(parts, c), c)| == |parts| ==> Split(Join(parts, c), c) == parts
  {
    if |parts| == 1 {
      SplitSingle(parts[0], c);
    } else {
      SplitNeverMerges(parts[1..], c);
      SplitAt(parts[0], Join(parts[1..], c), c);
      SplitSingle(parts[0], c);
      assert parts == [parts[0]] + parts[1..];
    }
  }

  lemma {:induction false} SplitSingle(s: string, c: char)
    ensures |Split(s, c)| == 1 ==> Split(s, c) == [s]
  {
    if s != "" {
      SplitSingle(s[1..], c);
      assert s == [s[0]] + s[1..];
    }
  }

  lemma FiveFieldsFromFive(fields: seq<string>)
    requires |fields| == 5 && |Split(Join(fields, SEPARATOR), SEPARATOR)| == 5
    ensures Split(Join(fields, SEPARATOR), SEPARATOR) == fields
  {
    SplitNeverMerges(fields, SEPARATOR);
  }

  lemma MarkTwin(q: Question)
    requires !(MarkFree(q) && AllPartsPresent(q))
    ensures HasTwin(q)
  {
    var p :=
      if q.scope.None? then q.(scope := Some(ABSENT))
      else if q.subjectId.None? then q.(subjectId := Some(ABSENT))
      else if q.actingTenantId.None? then q.(actingTenantId := Some(ABSENT))
      else if q.scope.value == ABSENT then q.(scope := None)
      else if q.subjectId.value == ABSENT then q.(subjectId := None)
      else q.(actingTenantId := None);
    assert p != q && Fields(p) == Fields(q);
    assert MemoKey(p) == MemoKey(q);
  }

  function Asking(subject: string, resource: string, action: string, scope: string, tenant: string): Question {
    Question(action, resource, Some(scope), Some(subject), Some(tenant))
  }

  function Cut(s: string): (parts: (string, string))
    requires SEPARATOR in s
    ensures s == parts.0 + [SEPARATOR] + parts.1 && |parts.0| < |s| && |parts.1| < |s|
  {
    var i := IndexOf(s, SEPARATOR);
    (s[..i], s[i + 1..])
  }

  lemma JoinFive(a: string, b: string, c: string, d: string, e: string, sep: char)
    ensures Join([a, b, c, d, e], sep) == a + [sep] + (b + [sep] + (c + [sep] + (d + [sep] + e)))
  {
    assert [d, e][1..] == [e] && [c, d, e][1..] == [d, e];
    assert Join([d, e], sep) == d + [sep] + e;
    assert Join([c, d, e], sep) == c + [sep] + (d + [sep] + e);
    assert [b, c, d, e][1..] == [c, d, e] && [a, b, c, d, e][1..] == [b, c, d, e];
  }

  lemma Regroup(u: string, v: string, w: string, sep: char)
    ensures (u + [sep] + v) + [sep] + w == u + [sep] + (v + [sep] + w)
  {
  }

  /** Moving a separator from inside one field to its border gives another question of the same key. */
  lemma SeparatorTwin(q: Question)
    requires !SeparatorFree(q)
    ensures HasTwin(q)
  {
    var f := Fields(q);
    var s, r, a, c, t := f[0], f[1], f[2], f[3], f[4];
    var i :| 0 <= i < 5 && SEPARATOR in f[i];
    var (u, v) := Cut(f[i]);
    var p :=
      if i == 0 then Asking(u, v + [SEPARATOR] + r, a, c, t)
      else if i == 1 then Asking(s, u, v + [SEPARATOR] + a, c, t)
      else if i == 2 then Asking(s, r, u, v + [SEPARATOR] + c, t)
      else if i == 3 then Asking(s, r, a, u, v + [SEPARATOR] + t)
      else Asking(s, r, a, c + [SEPARATOR] + u, v);
    var g := Fields(p);
    JoinFive(s, r, a, c, t, SEPARATOR);
    JoinFive(g[0], g[1], g[2], g[3], g[4], SEPARATOR);
    assert f == [s, r, a, c, t] && g == [g[0], g[1], g[2], g[3], g[4]];
    if i == 0 {
      Regroup(u, v, r + [SEPARATOR] + (a + [SEPARATOR] + (c + [SEPARATOR] + t)), SEPARATOR);
      Regroup(v, r, a + [SEPARATOR] + (c + [SEPARATOR] + t), SEPARATOR);
    } else if i == 1 {
      Regroup(u, v, a + [SEPARATOR] + (c + [SEPARATOR] + t), SEPARATOR);
      Regroup(v, a, c + [SEPARATOR] + t, SEPARATOR);
    } else if i == 2 {
      Regroup(u, v, c + [SEPARATOR] + t, SEPARATOR);
      Regroup(v, c, t, SEPARATOR);
    } else if i == 3 {
      Regroup(u, v, t, SEPARATOR);
    } else {
      Regroup(c, u, v, SEPARATOR);
    }
    assert MemoKey(p) == MemoKey(q);
    assert p != q by {
      assert if i == 4 then |g[4]| < |f[4]| else |g[i]| < |f[i]|;
    }
  }
}
