/**
 The query builder behind the execution listing: conditions with numbered
 placeholders, an argument list, and what the database makes of the two.
 */
module ExecutionFilter {
  import opened Wrappers
  import opened Islands
  import opened Executions

  /** A filter field: empty, text that is not a UUID, or a UUID. */
  datatype Field = Absent | Malformed | Uuid(id: int)

  /** `status` is any text, "" when absent; a text that names no status matches no execution. */
  datatype Filter = Filter(host: Field, job: Field, status: string, since: Option<Time>)

  /** The text of a status in the table. */
  function StatusText(s: Status): string {
    match s
    case Running => "running"
    case Success => "success"
    case Failed => "failed"
    case Unknown => "unknown"
    case Partial => "partial"
    case Missed => "missed"
  }

  datatype Column = HostColumn | JobColumn | StatusColumn | CreatedColumn

  /** "column = $n", or "created_at >= $n" */
  datatype Condition = Condition(column: Column, placeholder: nat)

  datatype Arg = IdArg(id: int) | StatusArg(text: string) | TimeArg(time: Time) | CountArg(count: int)

  /** WHERE conditions ORDER BY created_at DESC LIMIT $limit OFFSET $offset */
  datatype Query = Query(conditions: seq<Condition>, limit: nat, offset: nat)

  datatype Built = Built(query: Query, args: seq<Arg>)

  datatype Result<+T> = Ok(value: T) | InvalidHost | InvalidJob

  // ---------------------------------------------------------------- the database side

  /** A condition refers to an argument of its column's type. */
  predicate Bound(c: Condition, args: seq<Arg>) {
    && 1 <= c.placeholder <= |args|
    && match c.column
       case HostColumn => args[c.placeholder - 1].IdArg?
       case JobColumn => args[c.placeholder - 1].IdArg?
       case StatusColumn => args[c.placeholder - 1].StatusArg?
       case CreatedColumn => args[c.placeholder - 1].TimeArg?
  }

  predicate Holds(c: Condition, args: seq<Arg>, e: Execution)
    requires Bound(c, args)
  {
    var a := args[c.placeholder - 1];
    match c.column
    case HostColumn => e.host == a.id
    case JobColumn => e.job == Some(a.id)
    case StatusColumn => StatusText(e.status) == a.text
    case CreatedColumn => e.createdAt >= a.time
  }

  predicate WellBound(b: Built) {
    && AllBound(b.query.conditions, b.args)
    && 1 <= b.query.limit <= |b.args| && b.args[b.query.limit - 1].CountArg?
    && 1 <= b.query.offset <= |b.args| && b.args[b.query.offset - 1].CountArg?
  }

  predicate AllBound(cs: seq<Condition>, args: seq<Arg>) {
    forall i :: 0 <= i < |cs| ==> Bound(cs[i], args)
  }

  predicate AllHold(cs: seq<Condition>, args: seq<Arg>, e: Execution)
    requires AllBound(cs, args)
  {
    forall i :: 0 <= i < |cs| ==> Holds(cs[i], args, e)
  }

  predicate Selected(b: Built, e: Execution)
    requires WellBound(b)
  {
    AllHold(b.query.conditions, b.args, e)
  }

  function Where(rows: seq<Execution>, p: Execution -> bool): seq<Execution> {
    if rows == [] then []
    else Where(rows[..|rows| - 1], p) + if p(rows[|rows| - 1]) then [rows[|rows| - 1]] else []
  }

  ghost predicate NewestFirst(rows: seq<Execution>) {
    forall i, j :: 0 <= i < j < |rows| ==> rows[i].createdAt >= rows[j].createdAt
  }

  /** LIMIT and OFFSET; a negative offset is an error and is not modelled. */
  function Page(rows: seq<Execution>, limit: int, offset: int): seq<Execution>
    requires limit >= 0 && offset >= 0
  {
    if offset >= |rows| then []
    else if limit >= |rows| - offset then rows[offset..]
    else rows[offset..offset + limit]
  }

  /** A page of some rows, newest first; rows of the same time may come in any order. */
  ghost predicate IsPage(result: seq<Execution>, rows: seq<Execution>, limit: int, offset: int)
    requires limit >= 0 && offset >= 0
  {
    exists ordered :: multiset(ordered) == multiset(rows) && NewestFirst(ordered) && result == Page(ordered, limit, offset)
  }

  /** What the database may return for the built query. */
  ghost predicate Answers(result: seq<Execution>, table: seq<Execution>, b: Built)
    requires WellBound(b)
    requires b.args[b.query.limit - 1].count >= 0 && b.args[b.query.offset - 1].count >= 0
  {
    IsPage(result, Where(table, e => WellBound(b) && Selected(b, e)),
           b.args[b.query.limit - 1].count, b.args[b.query.offset - 1].count)
  }

  // -------------------------------------------------------------------- the intention

  predicate FieldAllows(f: Field, id: Option<int>) {
    f.Uuid? ==> id == Some(f.id)
  }

  /** Direct filtering on the fields that are present. */
  predicate Wanted(f: Filter, e: Execution) {
    && FieldAllows(f.host, Some(e.host))
    && FieldAllows(f.job, e.job)
    && (f.status != "" ==> StatusText(e.status) == f.status)
    && (f.since.Some? ==> e.createdAt >= f.since.value)
  }

  function Present(f: Filter): nat {
    (if f.host.Uuid? then 1 else 0) + (if f.job.Uuid? then 1 else 0)
    + (if f.status != "" then 1 else 0) + (if f.since.Some? then 1 else 0)
  }

  function EffectiveLimit(limit: int): (n: int)
    ensures n > 0
  {
    if limit <= 0 then 50 else limit
  }

  // ---------------------------------------------------------------------- the builder

  /** The first two fields, which must parse as UUIDs. */
  method AddIds(f: Filter) returns (r: Result<Built>, n: nat)
    ensures f.host.Malformed? ==> r == InvalidHost
    ensures !f.host.Malformed? && f.job.Malformed? ==> r == InvalidJob
    ensures !f.host.Malformed? && !f.job.Malformed? ==>
              r.Ok? && Good(r.value.query.conditions, r.value.args, n, Filter(f.host, f.job, "", None))
  {
    var args: seq<Arg> := [];
    var conditions: seq<Condition> := [];
    n := 1;
    ghost var g := Filter(Absent, Absent, "", None);
    if !f.host.Absent? {
      if f.host.Malformed? {
        return InvalidHost, n;
      }
      Extend(conditions, args, g, Condition(HostColumn, n), IdArg(f.host.id), g.(host := f.host));
      conditions := conditions + [Condition(HostColumn, n)];
      args := args + [IdArg(f.host.id)];
      n := n + 1;
    }
    g := g.(host := f.host);
    assert Good(conditions, args, n, g);
    if !f.job.Absent? {
      if f.job.Malformed? {
        return InvalidJob, n;
      }
      Extend(conditions, args, g, Condition(JobColumn, n), IdArg(f.job.id), g.(job := f.job));
      conditions := conditions + [Condition(JobColumn, n)];
      args := args + [IdArg(f.job.id)];
      n := n + 1;
    }
    r := Ok(Built(Query(conditions, 0, 0), args));
  }

  /** The other two fields. */
  method AddStatusAndTime(f: Filter, conds: seq<Condition>, params: seq<Arg>, next: nat)
    returns (conditions: seq<Condition>, args: seq<Arg>, n: nat)
    requires Good(conds, params, next, Filter(f.host, f.job, "", None))
    ensures Good(conditions, args, n, f)
  {
    conditions, args, n := conds, params, next;
    ghost var g := Filter(f.host, f.job, "", None);
    if f.status != "" {
      Extend(conditions, args, g, Condition(StatusColumn, n), StatusArg(f.status), g.(status := f.status));
      conditions := conditions + [Condition(StatusColumn, n)];
      args := args + [StatusArg(f.status)];
      n := n + 1;
    }
    g := g.(status := f.status);
    assert Good(conditions, args, n, g);
    if f.since.Some? {
      Extend(conditions, args, g, Condition(CreatedColumn, n), TimeArg(f.since.value), f);
      conditions := conditions + [Condition(CreatedColumn, n)];
      args := args + [TimeArg(f.since.value)];
      n := n + 1;
    }
  }

  /** A finished query selects the wanted rows with consecutive placeholders, each on its own argument. */
  ghost predicate Implements(b: Built, f: Filter, limit: int, offset: int) {
    var k := Present(f);
    && WellBound(b)
    && |b.query.conditions| == k && |b.args| == k + 2
    && (forall i :: 0 <= i < k ==> b.query.conditions[i].placeholder == i + 1)
    && b.query.limit == k + 1 && b.query.offset == k + 2
    && b.args[k] == CountArg(EffectiveLimit(limit))
    && b.args[k + 1] == CountArg(offset)
    && forall e :: Selected(b, e) <==> Wanted(f, e)
  }

  /** ListFiltered up to the query call. */
  method BuildQuery(f: Filter, limit: int, offset: int) returns (r: Result<Built>)
    ensures f.host.Malformed? ==> r == InvalidHost
    ensures !f.host.Malformed? && f.job.Malformed? ==> r == InvalidJob
    ensures !f.host.Malformed? && !f.job.Malformed? ==> r.Ok? && Implements(r.value, f, limit, offset)
  {
    var lim := limit;
    if lim <= 0 {
      lim := 50;
    }
    var ids, next := AddIds(f);
    if !ids.Ok? {
      return ids;
    }
    var conditions, args, n := AddStatusAndTime(f, ids.value.query.conditions, ids.value.args, next);
    MoreArgs(conditions, args, [CountArg(lim), CountArg(offset)]);
    args := args + [CountArg(lim), CountArg(offset)];
    r := Ok(Built(Query(conditions, n, n + 1), args));
  }

  /** The builder's state when the fields of g have been handled. */
  ghost predicate Good(cs: seq<Condition>, args: seq<Arg>, n: nat, g: Filter) {
    && |cs| == |args| == Present(g) && n == |cs| + 1
    && AllBound(cs, args)
    && (forall i :: 0 <= i < |cs| ==> cs[i].placeholder == i + 1)
    && forall e :: AllHold(cs, args, e) <==> Wanted(g, e)
  }

  /** Further arguments change the meaning of no condition. */
  lemma MoreArgs(cs: seq<Condition>, args: seq<Arg>, more: seq<Arg>)
    requires AllBound(cs, args)
    ensures AllBound(cs, args + more)
    ensures forall e :: AllHold(cs, args + more, e) <==> AllHold(cs, args, e)
  {
    forall e ensures AllHold(cs, args + more, e) <==> AllHold(cs, args, e) {
      forall i | 0 <= i < |cs| ensures Holds(cs[i], args + more, e) <==> Holds(cs[i], args, e) {
      }
    }
  }

  /** A new condition with the next placeholder narrows the selection by its own test. */
  lemma Extend(cs: seq<Condition>, args: seq<Arg>, g: Filter, c: Condition, a: Arg, g': Filter)
    requires Good(cs, args, |cs| + 1, g)
    requires c.placeholder == |cs| + 1 && Bound(c, args + [a])
    requires Present(g') == Present(g) + 1
    requires forall e :: Wanted(g', e) <==> Wanted(g, e) && Holds(c, args + [a], e)
    ensures Good(cs + [c], args + [a], |cs| + 2, g')
  {
    MoreArgs(cs, args, [a]);
    forall e ensures AllHold(cs + [c], args + [a], e) <==> Wanted(g', e) {
      assert AllHold(cs + [c], args + [a], e) <==> AllHold(cs, args + [a], e) && Holds(c, args + [a], e) by {
        assert (cs + [c])[|cs|] == c;
        assert forall i :: 0 <= i < |cs| ==> (cs + [c])[i] == cs[i];
      }
    }
  }

  lemma {:induction false} WhereSame(rows: seq<Execution>, p: Execution -> bool, q: Execution -> bool)
    requires forall e :: p(e) <==> q(e)
    ensures Where(rows, p) == Where(rows, q)
  {
    if rows != [] {
      WhereSame(rows[..|rows| - 1], p, q);
    }
  }

  /**
   For every filter the database answers the built query exactly as direct
   filtering would: the wanted rows, newest first, cut to the page.
   */
  lemma QueryMeansFilter(result: seq<Execution>, table: seq<Execution>, b: Built, f: Filter, limit: int, offset: int)
    requires Implements(b, f, limit, offset) && offset >= 0
    ensures Answers(result, table, b) <==>
              IsPage(result, Where(table, e => Wanted(f, e)), EffectiveLimit(limit), offset)
  {
    WhereSame(table, e => WellBound(b) && Selected(b, e), e => Wanted(f, e));
  }

  // ----------------------------------------------------------------- what is answered

  /** The rows the caller asked for, field by field. */
  ghost function Matches(table: seq<Execution>, f: Filter): set<nat> {
    set i: nat | i < |table|
                 && (f.host.Uuid? ==> table[i].host == f.host.id)
                 && (f.job.Uuid? ==> table[i].job == Some(f.job.id))
                 && (f.status != "" ==> HasStatus(table[i], f.status))
                 && (f.since.Some? ==> table[i].createdAt >= f.since.value)
  }

  predicate HasStatus(e: Execution, text: string) {
    || (text == "running" && e.status == Running) || (text == "success" && e.status == Success)
    || (text == "failed" && e.status == Failed) || (text == "unknown" && e.status == Unknown)
    || (text == "partial" && e.status == Partial) || (text == "missed" && e.status == Missed)
  }

  lemma StatusMeaning(e: Execution, text: string)
    ensures StatusText(e.status) == text <==> HasStatus(e, text)
  {
    assert "running"[0] == 'r' && "success"[0] == 's' && "failed"[0] == 'f';
    assert "unknown"[0] == 'u' && "partial"[0] == 'p' && "missed"[0] == 'm';
  }

  lemma WantedMeaning(table: seq<Execution>, f: Filter, i: nat)
    requires i < |table|
    ensures Wanted(f, table[i]) <==> i in Matches(table, f)
  {
    StatusMeaning(table[i], f.status);
  }

  ghost function WantedRows(table: seq<Execution>, f: Filter): seq<Execution> {
    Where(table, e => Wanted(f, e))
  }

  lemma {:induction false} WhereSize(rows: seq<Execution>, p: Execution -> bool, wanted: set<nat>)
    requires forall i: nat :: i in wanted <==> i < |rows| && p(rows[i])
    ensures |Where(rows, p)| == |wanted|
  {
    if rows == [] {
      assert wanted == {};
    } else {
      var n := |rows| - 1;
      WhereSize(rows[..n], p, wanted - {n});
      assert wanted == (wanted - {n}) + if p(rows[n]) then {n} else {};
    }
  }

  lemma {:induction false} WhereHas(rows: seq<Execution>, p: Execution -> bool, e: Execution)
    ensures multiset(Where(rows, p))[e] == if p(e) then multiset(rows)[e] else 0
  {
    if rows != [] {
      var n := |rows| - 1;
      WhereHas(rows[..n], p, e);
      assert rows == rows[..n] + [rows[n]];
    }
  }

  lemma WantedRowsAre(table: seq<Execution>, f: Filter)
    ensures |WantedRows(table, f)| == |Matches(table, f)|
    ensures multiset(WantedRows(table, f)) <= multiset(table)
    ensures forall e :: e in WantedRows(table, f) <==> IsWanted(table, f, e)
  {
    var p := e => Wanted(f, e);
    forall i: nat | i < |table| ensures p(table[i]) <==> i in Matches(table, f) { WantedMeaning(table, f, i); }
    WhereSize(table, p, Matches(table, f));
    forall e ensures multiset(WantedRows(table, f))[e] == if p(e) then multiset(table)[e] else 0 { WhereHas(table, p, e); }
    forall e ensures e in WantedRows(table, f) <==> IsWanted(table, f, e) {
      InBoth(table, WantedRows(table, f), p, e);
      if e in table && p(e) {
        var i :| 0 <= i < |table| && table[i] == e;
        assert i in Matches(table, f);
      }
    }
  }

  lemma InBoth(table: seq<Execution>, rows: seq<Execution>, p: Execution -> bool, e: Execution)
    requires multiset(rows)[e] == if p(e) then multiset(table)[e] else 0
    ensures e in rows <==> e in table && p(e)
  {
    assert e in rows <==> e in multiset(rows);
    assert e in table <==> e in multiset(table);
  }

  /** A row of the table that the caller asked for. */
  ghost predicate IsWanted(table: seq<Execution>, f: Filter, e: Execution) {
    exists i :: i in Matches(table, f) && i < |table| && table[i] == e
  }

  /** How many rows a page of n rows holds. */
  function PageSize(n: nat, limit: int, offset: int): int
    requires offset >= 0
  {
    var most := if limit <= 0 then 50 else limit;
    if offset >= n then 0 else if n - offset < most then n - offset else most
  }

  /** The rows before a page, the page and the rows after it make up all rows, newest first. */
  ghost predicate Completes(result: seq<Execution>, before: seq<Execution>, after: seq<Execution>, all: multiset<Execution>,
                            offset: int) {
    && multiset(before) + multiset(result) + multiset(after) == all
    && NewestFirst(before + result + after)
    && (result != [] ==> |before| == offset)
  }

  lemma Cut(ordered: seq<Execution>, limit: int, offset: int) returns (before: seq<Execution>, after: seq<Execution>)
    requires limit >= 0 && offset >= 0 && NewestFirst(ordered)
    ensures Completes(Page(ordered, limit, offset), before, after, multiset(ordered), offset)
    ensures |Page(ordered, limit, offset)| ==
              if offset >= |ordered| then 0 else if |ordered| - offset < limit then |ordered| - offset else limit
  {
    var page := Page(ordered, limit, offset);
    if offset >= |ordered| {
      before, after := ordered, [];
      assert before + page + after == ordered;
    } else {
      before, after := ordered[..offset], ordered[offset + |page|..];
      assert before + page + after == ordered;
    }
    assert multiset(before + page + after) == multiset(before) + multiset(page) + multiset(after);
  }

  /**
   An answer to the built query, with the rows before and after its page, is the list
   of all rows the caller asked for, newest first; it begins at the offset and is
   full unless the rows run out. Nothing else is in it.
   */
  lemma AnswerMeaning(result: seq<Execution>, table: seq<Execution>, b: Built, f: Filter, limit: int, offset: int)
    returns (before: seq<Execution>, after: seq<Execution>)
    requires Implements(b, f, limit, offset) && offset >= 0 && Answers(result, table, b)
    ensures NewestFirst(before + result + after)
    ensures |before| + |result| + |after| == |Matches(table, f)|
    ensures multiset(before) + multiset(result) + multiset(after) <= multiset(table)
    ensures forall e :: e in before + result + after <==> IsWanted(table, f, e)
    ensures result != [] ==> |before| == offset
    ensures |result| == PageSize(|Matches(table, f)|, limit, offset)
  {
    QueryMeansFilter(result, table, b, f, limit, offset);
    WantedRowsAre(table, f);
    var ordered :| multiset(ordered) == multiset(WantedRows(table, f)) && NewestFirst(ordered)
                   && result == Page(ordered, EffectiveLimit(limit), offset);
    before, after := Cut(ordered, EffectiveLimit(limit), offset);
    SameRows(before + result + after, WantedRows(table, f));
    SameRows(ordered, WantedRows(table, f));
  }

  lemma SameRows(a: seq<Execution>, b: seq<Execution>)
    requires multiset(a) == multiset(b)
    ensures |a| == |b| && forall e :: e in a <==> e in b
  {
    assert |a| == |multiset(a)|;
    forall e ensures e in a <==> e in b {
      assert e in a <==> e in multiset(a);
      assert e in b <==> e in multiset(b);
    }
  }
}
