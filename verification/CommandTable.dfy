/** The table of user-defined shell commands: a fixed number of rows, kept sorted for completion. */
module CommandTable {

  const MAX_CMD_CNT := 20
  const MAX_CMD_LEN := 33

  // The order of strcmp

  predicate Less(a: string, b: string) {
    if b == "" then false
    else if a == "" then true
    else a[0] < b[0] || (a[0] == b[0] && Less(a[1..], b[1..]))
  }

  lemma {:induction false} LessIsStrict(a: string)
    ensures !Less(a, a)
  {
    if a != "" {
      LessIsStrict(a[1..]);
    }
  }

  lemma {:induction false} LessIsTransitive(a: string, b: string, c: string)
    requires Less(a, b) && Less(b, c)
    ensures Less(a, c)
    decreases |a|
  {
    if a != "" && a[0] == b[0] && b[0] == c[0] {
      LessIsTransitive(a[1..], b[1..], c[1..]);
    }
  }

  lemma {:induction false} LessIsTotal(a: string, b: string)
    ensures Less(a, b) || a == b || Less(b, a)
    decreases |a|
  {
    if a != "" && b != "" && a[0] == b[0] {
      LessIsTotal(a[1..], b[1..]);
      assert a == [a[0]] + a[1..] && b == [b[0]] + b[1..];
    }
  }

  /** The order is lexicographic: decided by the first difference, or by the end of the shorter string. */
  lemma {:induction false} LessIsLexicographic(a: string, b: string, k: nat)
    requires k <= |a| && k <= |b| && a[..k] == b[..k]
    requires k == |a| || k == |b| || a[k] != b[k]
    ensures Less(a, b) <==> k < |b| && (k == |a| || a[k] < b[k])
    decreases k
  {
    if k > 0 {
      assert a[0] == a[..k][0] == b[..k][0] == b[0];
      assert a[1..][..k - 1] == a[..k][1..] == b[..k][1..] == b[1..][..k - 1];
      LessIsLexicographic(a[1..], b[1..], k - 1);
    }
  }

  ghost predicate Ascending(s: seq<string>) { forall i, j :: 0 <= i < j < |s| ==> Less(s[i], s[j]) }

  // Sorting

  function Insert(s: seq<string>, x: string): seq<string> {
    if s == [] || !Less(x, s[|s| - 1]) then s + [x] else Insert(s[..|s| - 1], x) + [s[|s| - 1]]
  }

  /** What qsort leaves, with the comparison function of the source. */
  function SortAll(s: seq<string>): seq<string> {
    if s == [] then [] else Insert(SortAll(s[..|s| - 1]), s[|s| - 1])
  }

  lemma {:induction false} InsertKeepsAscending(s: seq<string>, x: string)
    requires Ascending(s) && x !in s
    ensures Ascending(Insert(s, x))
    ensures forall y :: y in Insert(s, x) <==> y in s || y == x
    ensures |Insert(s, x)| == |s| + 1
  {
    if s != [] {
      var front, last := s[..|s| - 1], s[|s| - 1];
      LessIsTotal(x, last);
      assert s == front + [last];
      if Less(x, last) {
        InsertKeepsAscending(front, x);
        forall i | 0 <= i < |s| ensures Less(Insert(front, x)[i], last) {
          assert Insert(front, x)[i] in Insert(front, x);
          assert Insert(front, x)[i] in front || Insert(front, x)[i] == x;
        }
      } else {
        forall i | 0 <= i < |s| ensures Less(s[i], x) {
          if i < |s| - 1 {
            LessIsTransitive(s[i], last, x);
          }
        }
      }
    }
  }

  lemma {:induction false} SortedStaysSorted(s: seq<string>)
    requires Ascending(s)
    ensures SortAll(s) == s
  {
    if s != [] {
      var front, last := s[..|s| - 1], s[|s| - 1];
      SortedStaysSorted(front);
      assert s == front + [last];
      if front != [] {
        LessIsStrict(last);
        var before := front[|front| - 1];
        if Less(last, before) {
          LessIsTransitive(last, before, last);
        }
      }
    }
  }

  ghost predicate NoneAfter(s: seq<string>) { forall i, j :: 0 <= i < j < |s| ==> !Less(s[j], s[i]) }

  lemma MultisetOfLast(s: seq<string>)
    requires s != []
    ensures multiset(s) == multiset(s[..|s| - 1]) + multiset{s[|s| - 1]}
  {
    assert s == s[..|s| - 1] + [s[|s| - 1]];
  }

  lemma NoneAfterSnoc(s: seq<string>, x: string)
    requires NoneAfter(s) && forall y :: y in multiset(s) ==> !Less(x, y)
    ensures NoneAfter(s + [x])
  {
    forall i | 0 <= i < |s| ensures !Less(x, s[i]) {
      assert s[i] in multiset(s);
    }
  }

  lemma AllBefore(s: seq<string>, x: string, y: string)
    requires NoneAfter(s) && s != [] && !Less(x, s[|s| - 1]) && y in multiset(s)
    ensures !Less(x, y)
  {
    var i :| 0 <= i < |s| && s[i] == y;
    if Less(x, y) {
      LessIsTotal(y, s[|s| - 1]);
      if Less(y, s[|s| - 1]) {
        LessIsTransitive(x, y, s[|s| - 1]);
      }
    }
  }

  lemma InsertedBeforeLast(s: seq<string>, x: string, inserted: seq<string>)
    requires NoneAfter(s) && s != [] && Less(x, s[|s| - 1])
    requires NoneAfter(inserted) && multiset(inserted) == multiset(s[..|s| - 1]) + multiset{x}
    ensures NoneAfter(inserted + [s[|s| - 1]])
    ensures multiset(inserted + [s[|s| - 1]]) == multiset(s) + multiset{x}
  {
    var front, last := s[..|s| - 1], s[|s| - 1];
    MultisetOfLast(s);
    forall y | y in multiset(inserted) ensures !Less(last, y) {
      if y == x {
        NotBoth(x, last);
      } else {
        var i :| 0 <= i < |front| && front[i] == y;
      }
    }
    NoneAfterSnoc(inserted, last);
  }

  lemma InsertedLast(s: seq<string>, x: string)
    requires NoneAfter(s) && s != [] && !Less(x, s[|s| - 1])
    ensures NoneAfter(s + [x])
  {
    forall y | y in multiset(s) ensures !Less(x, y) {
      AllBefore(s, x, y);
    }
    NoneAfterSnoc(s, x);
  }

  lemma {:induction false} InsertSorts(s: seq<string>, x: string)
    requires NoneAfter(s)
    ensures NoneAfter(Insert(s, x)) && multiset(Insert(s, x)) == multiset(s) + multiset{x}
  {
    if s != [] {
      if Less(x, s[|s| - 1]) {
        InsertSorts(s[..|s| - 1], x);
        InsertedBeforeLast(s, x, Insert(s[..|s| - 1], x));
      } else {
        InsertedLast(s, x);
      }
    }
  }

  lemma NotBoth(a: string, b: string)
    requires Less(a, b)
    ensures !Less(b, a)
  {
    LessIsStrict(a);
    if Less(b, a) {
      LessIsTransitive(a, b, a);
    }
  }

  /** In general: a sorted permutation. */
  lemma {:induction false} SortAllSorts(s: seq<string>)
    ensures NoneAfter(SortAll(s)) && multiset(SortAll(s)) == multiset(s)
  {
    if s != [] {
      var front, last := s[..|s| - 1], s[|s| - 1];
      SortAllSorts(front);
      InsertSorts(SortAll(front), last);
      MultisetOfLast(s);
    }
  }

  // The table

  /** `rows` are all the rows, of which the first `cnt` are in use. */
  datatype Table = Table(rows: seq<string>, cnt: nat)

  /** The row that memory holds behind the table matters when a full table is shifted. */
  datatype Op = Add(name: string) | Remove(name: string, beyond: string)

  predicate IsAlnum(c: char) { 'a' <= c <= 'z' || 'A' <= c <= 'Z' || '0' <= c <= '9' }

  predicate IsName(s: string) { |s| < MAX_CMD_LEN && forall i :: 0 <= i < |s| ==> IsAlnum(s[i]) }

  /** Digits, capital and small letters, by their codes. */
  lemma AlnumCodes(c: char)
    ensures IsAlnum(c) <==> 48 <= c as int <= 57 || 65 <= c as int <= 90 || 97 <= c as int <= 122
  {}

  predicate AddAllowed(t: Table, name: string) {
    t.cnt < MAX_CMD_CNT && IsName(name) && name !in t.rows
  }

  function Added(t: Table, name: string): Table
    requires t.cnt < |t.rows|
  {
    Table(SortAll(t.rows[..t.cnt] + [name]) + t.rows[t.cnt + 1..], t.cnt + 1)
  }

  /** The first row in use that holds the name, or the count. */
  function Index(t: Table, name: string, from: nat): (k: nat)
    requires from <= t.cnt <= |t.rows|
    ensures from <= k <= t.cnt && (k < t.cnt ==> t.rows[k] == name) && name !in t.rows[from..k]
    decreases t.cnt - from
  {
    if from == t.cnt || t.rows[from] == name then from
    else
      var k := Index(t, name, from + 1);
      assert t.rows[from..k] == [t.rows[from]] + t.rows[from + 1..k];
      k
  }

  /** Row `k` goes: the rows after it, up to and with the first one not in use, move down one. */
  function RemovedAt(t: Table, k: nat, beyond: string): Table
    requires k < t.cnt <= |t.rows| == MAX_CMD_CNT
  {
    if k == MAX_CMD_CNT - 1 then Table(t.rows[k := ""], t.cnt - 1)
    else Table(t.rows[..k] + (t.rows + [beyond])[k + 1..t.cnt + 1] + t.rows[t.cnt..], t.cnt - 1)
  }

  function Apply(t: Table, op: Op): (Table, bool)
    requires t.cnt <= |t.rows| == MAX_CMD_CNT
  {
    match op
    case Add(name) => if AddAllowed(t, name) then (Added(t, name), true) else (t, false)
    case Remove(name, beyond) =>
      var k := Index(t, name, 0);
      if k < t.cnt then (RemovedAt(t, k, beyond), true) else (t, false)
  }

  /** The rows in use are sorted without duplicates, and names. */
  ghost predicate InOrder(t: Table) {
    && t.cnt <= |t.rows| == MAX_CMD_CNT
    && Ascending(t.rows[..t.cnt])
    && forall i :: 0 <= i < t.cnt ==> IsName(t.rows[i])
  }

  /** And the others are empty, and only they. */
  ghost predicate Clean(t: Table) {
    InOrder(t) && forall i :: 0 <= i < |t.rows| ==> (t.rows[i] == "" <==> t.cnt <= i)
  }

  ghost function Names(t: Table): set<string>
    requires t.cnt <= |t.rows|
  {
    set s | s in t.rows[..t.cnt]
  }

  lemma AddedRows(t: Table, name: string)
    requires InOrder(t) && t.cnt < MAX_CMD_CNT
    ensures Added(t, name).rows == Insert(t.rows[..t.cnt], name) + t.rows[t.cnt + 1..]
  {
    var front := t.rows[..t.cnt];
    SortedStaysSorted(front);
    assert (front + [name])[..t.cnt] == front;
  }

  lemma LeftAreNames(t: Table, k: nat, left: seq<string>)
    requires InOrder(t) && k < t.cnt && left == t.rows[..t.cnt][..k] + t.rows[..t.cnt][k + 1..]
    ensures forall x :: x in left ==> IsName(x)
  {
    forall i | 0 <= i < |left| ensures IsName(left[i]) {
      assert left[i] == t.rows[if i < k then i else i + 1];
    }
  }

  lemma AllNames(s: seq<string>, rows: seq<string>)
    requires |s| <= |rows| && rows[..|s|] == s && forall x :: x in s ==> IsName(x)
    ensures forall i :: 0 <= i < |s| ==> IsName(rows[i])
  {
    assert forall i :: 0 <= i < |s| ==> rows[i] == s[i] && s[i] in s;
  }

  /** Everything about the sorted rows themselves. */
  lemma SortedIn(front: seq<string>, name: string, sorted: seq<string>)
    requires Ascending(front) && name !in front && sorted == Insert(front, name)
    requires IsName(name) && forall x :: x in front ==> IsName(x)
    ensures |sorted| == |front| + 1 && Ascending(sorted) && forall x :: x in sorted ==> IsName(x)
    ensures (set x | x in sorted) == (set x | x in front) + {name}
  {
    InsertKeepsAscending(front, name);
  }

  lemma FrontNames(t: Table, name: string)
    requires InOrder(t) && AddAllowed(t, name)
    ensures name !in t.rows[..t.cnt] && forall x :: x in t.rows[..t.cnt] ==> IsName(x)
  {
    forall x | x in t.rows[..t.cnt] ensures IsName(x) && x != name {
      var i :| 0 <= i < t.cnt && t.rows[..t.cnt][i] == x;
      assert t.rows[i] == x;
    }
  }

  lemma AddKeeps(t: Table, name: string)
    requires InOrder(t) && AddAllowed(t, name)
    ensures InOrder(Added(t, name)) && Names(Added(t, name)) == Names(t) + {name}
    ensures Added(t, name).rows[t.cnt + 1..] == t.rows[t.cnt + 1..]
  {
    var front := t.rows[..t.cnt];
    var sorted, t' := Insert(front, name), Added(t, name);
    AddedRows(t, name);
    FrontNames(t, name);
    SortedIn(front, name, sorted);
    assert t'.rows[..t'.cnt] == sorted;
    AllNames(sorted, t'.rows);
    assert Names(t') == set x | x in sorted;
    assert Names(t) == set x | x in front;
  }

  lemma RemovedFront(t: Table, k: nat, beyond: string)
    requires k < t.cnt <= |t.rows| == MAX_CMD_CNT
    ensures |RemovedAt(t, k, beyond).rows| == MAX_CMD_CNT
    ensures RemovedAt(t, k, beyond).rows[..t.cnt - 1] == t.rows[..k] + t.rows[k + 1..t.cnt]
  {
    RemovedRows(t, k, beyond);
    var rows := RemovedAt(t, k, beyond).rows;
    var front, back := t.rows[..k], t.rows[k + 1..t.cnt];
    forall i | 0 <= i < t.cnt - 1 ensures rows[i] == (front + back)[i] {
      if i < k {
        assert (front + back)[i] == front[i] == t.rows[i];
      } else {
        assert (front + back)[i] == back[i - k] == t.rows[i + 1];
      }
    }
  }

  lemma WithoutOne(u: seq<string>, k: nat, left: seq<string>)
    requires Ascending(u) && k < |u| && left == u[..k] + u[k + 1..]
    ensures Ascending(left)
    ensures (set x | x in left) == (set x | x in u) - {u[k]}
  {
    forall i | 0 <= i < |u| && i != k ensures u[i] != u[k] {
      LessIsStrict(u[k]);
    }
    assert u == u[..k] + [u[k]] + u[k + 1..];
  }

  lemma RemoveKeeps(t: Table, k: nat, beyond: string)
    requires InOrder(t) && k < t.cnt
    ensures InOrder(RemovedAt(t, k, beyond)) && Names(RemovedAt(t, k, beyond)) == Names(t) - {t.rows[k]}
  {
    var t', u := RemovedAt(t, k, beyond), t.rows[..t.cnt];
    var left := u[..k] + u[k + 1..];
    RemovedFront(t, k, beyond);
    assert t'.rows[..t'.cnt] == left;
    WithoutOne(u, k, left);
    LeftAreNames(t, k, left);
    AllNames(left, t'.rows);
    assert u[k] == t.rows[k];
    assert Names(t') == set x | x in left;
    assert Names(t) == set x | x in u;
  }

  /** The full table shifted, with something other than an empty string behind it. */
  predicate ReadsBeyond(t: Table, op: Op)
    requires t.cnt <= |t.rows|
  {
    op.Remove? && t.cnt == MAX_CMD_CNT && Index(t, op.name, 0) < MAX_CMD_CNT - 1 && op.beyond != ""
  }

  /** In any state every step keeps the order, and changes the names as its answer says. */
  lemma StepKeepsOrder(t: Table, op: Op)
    requires InOrder(t)
    ensures var (t', ok) := Apply(t, op);
            && InOrder(t')
            && Names(t') == (if !ok then Names(t) else if op.Add? then Names(t) + {op.name} else Names(t) - {op.name})
            && (op.Remove? ==> (ok <==> op.name in Names(t)))
  {
    match op
    case Add(name) =>
      if AddAllowed(t, name) {
        AddKeeps(t, name);
      }
    case Remove(name, beyond) =>
      var k := Index(t, name, 0);
      if k < t.cnt {
        RemoveKeeps(t, k, beyond);
        assert t.rows[..t.cnt][k] == name;
      }
  }

  lemma AddKeepsClean(t: Table, name: string)
    requires Clean(t) && AddAllowed(t, name)
    ensures Clean(Added(t, name))
  {
    AddKeeps(t, name);
    assert t.rows[t.cnt] == "";
    var t' := Added(t, name);
    forall i | 0 <= i < |t'.rows| ensures t'.rows[i] == "" <==> t'.cnt <= i {
      if i < t'.cnt {
        assert t'.rows[i] == t'.rows[..t'.cnt][i];
        assert t'.rows[i] in Names(t) || t'.rows[i] == name;
      } else {
        assert t'.rows[t.cnt + 1..][i - t'.cnt] == t.rows[i];
      }
    }
  }

  lemma RemoveKeepsClean(t: Table, k: nat, beyond: string)
    requires Clean(t) && k < t.cnt
    ensures Clean(RemovedAt(t, k, beyond)) <==> t.cnt < MAX_CMD_CNT || k == MAX_CMD_CNT - 1 || beyond == ""
  {
    RemoveKeeps(t, k, beyond);
    RemovedRows(t, k, beyond);
  }

  /** The unused rows stay empty in a step exactly when it does not shift foreign bytes in. */
  lemma StepKeepsClean(t: Table, op: Op)
    requires Clean(t)
    ensures Clean(Apply(t, op).0) <==> !ReadsBeyond(t, op)
  {
    match op
    case Add(name) =>
      if AddAllowed(t, name) {
        AddKeepsClean(t, name);
      }
    case Remove(name, beyond) =>
      if Index(t, name, 0) < t.cnt {
        RemoveKeepsClean(t, Index(t, name, 0), beyond);
      }
  }

  lemma RemovedRows(t: Table, k: nat, beyond: string)
    requires k < t.cnt <= |t.rows| == MAX_CMD_CNT
    ensures var t' := RemovedAt(t, k, beyond);
            && |t'.rows| == MAX_CMD_CNT
            && (forall i :: 0 <= i < k ==> t'.rows[i] == t.rows[i])
            && (forall i :: k <= i < t'.cnt ==> t'.rows[i] == t.rows[i + 1])
            && t'.rows[t'.cnt] == (if k == MAX_CMD_CNT - 1 then "" else if t.cnt == MAX_CMD_CNT then beyond else t.rows[t.cnt])
            && (forall i :: t.cnt <= i < MAX_CMD_CNT ==> t'.rows[i] == t.rows[i])
  {
    if k < MAX_CMD_CNT - 1 {
      var moved := (t.rows + [beyond])[k + 1..t.cnt + 1];
      var t' := RemovedAt(t, k, beyond);
      assert t'.rows == t.rows[..k] + moved + t.rows[t.cnt..];
      assert forall i :: k <= i < t.cnt ==> t'.rows[i] == moved[i - k] && moved[i - k] == (t.rows + [beyond])[i + 1];
    }
  }

  lemma {:induction false} DistinctCount(s: seq<string>)
    requires Ascending(s)
    ensures |(set x | x in s)| == |s|
  {
    if s != [] {
      var front, last := s[..|s| - 1], s[|s| - 1];
      DistinctCount(front);
      LessIsStrict(last);
      assert s == front + [last];
      assert (set x | x in s) == (set x | x in front) + {last};
    }
  }

  // The table as a bounded set of names

  function SetApply(names: set<string>, op: Op): (set<string>, bool) {
    match op
    case Add(name) =>
      if |names| < MAX_CMD_CNT && IsName(name) && name != "" && name !in names then (names + {name}, true) else (names, false)
    case Remove(name, _) =>
      if name in names then (names - {name}, true) else (names, false)
  }

  lemma CleanAddAllowed(t: Table, name: string)
    requires Clean(t)
    ensures AddAllowed(t, name) <==>
            |Names(t)| < 20 && 1 <= |name| <= 32 && (forall i :: 0 <= i < |name| ==> IsAlnum(name[i])) && name !in Names(t)
  {
    DistinctCount(t.rows[..t.cnt]);
    assert Names(t) == set x | x in t.rows[..t.cnt];
    if t.cnt < MAX_CMD_CNT {
      assert t.rows[t.cnt] == "";
      assert t.rows == t.rows[..t.cnt] + t.rows[t.cnt..];
      assert name in t.rows[t.cnt..] ==> name == "";
    }
  }

  /** A clean table answers and changes like the set; so the empty name is always refused. */
  lemma TableRefinesSet(t: Table, op: Op)
    requires Clean(t)
    ensures var (t', ok) := Apply(t, op);
            t'.cnt <= |t'.rows| && (Names(t'), ok) == SetApply(Names(t), op)
  {
    StepKeepsOrder(t, op);
    CleanAddAllowed(t, op.name);
  }

  /** The table after a series of operations. */
  function Run(t: Table, ops: seq<Op>): (t': Table)
    requires t.cnt <= |t.rows| == MAX_CMD_CNT
    ensures t'.cnt <= |t'.rows| == MAX_CMD_CNT
  {
    if ops == [] then t else
      var before := Run(t, ops[..|ops| - 1]);
      ApplyKeepsShape(before, ops[|ops| - 1]);
      Apply(before, ops[|ops| - 1]).0
  }

  lemma {:induction false} SortAllLength(s: seq<string>)
    ensures |SortAll(s)| == |s|
  {
    SortAllSorts(s);
    assert |multiset(SortAll(s))| == |SortAll(s)|;
  }

  lemma ApplyKeepsShape(t: Table, op: Op)
    requires t.cnt <= |t.rows| == MAX_CMD_CNT
    ensures var t' := Apply(t, op).0; t'.cnt <= |t'.rows| == MAX_CMD_CNT
  {
    if op.Add? && AddAllowed(t, op.name) {
      SortAllLength(t.rows[..t.cnt] + [op.name]);
    }
  }

  function SetRun(names: set<string>, ops: seq<Op>): set<string> {
    if ops == [] then names else SetApply(SetRun(names, ops[..|ops| - 1]), ops[|ops| - 1]).0
  }

  const EMPTY := Table(seq(MAX_CMD_CNT, i => ""), 0)

  /** In every run whatsoever the rows in use are sorted names without duplicates. */
  lemma {:induction false} AlwaysInOrder(ops: seq<Op>)
    ensures InOrder(Run(EMPTY, ops))
  {
    if ops != [] {
      AlwaysInOrder(ops[..|ops| - 1]);
      StepKeepsOrder(Run(EMPTY, ops[..|ops| - 1]), ops[|ops| - 1]);
    }
  }

  /** In every run that shifts no foreign bytes in, the table is the set of names added and not removed. */
  lemma {:induction false} RunRefinesSet(ops: seq<Op>)
    requires forall i :: 0 <= i < |ops| ==> !ReadsBeyond(Run(EMPTY, ops[..i]), ops[i])
    ensures Clean(Run(EMPTY, ops)) && Names(Run(EMPTY, ops)) == SetRun({}, ops)
  {
    if ops != [] {
      var front, op := ops[..|ops| - 1], ops[|ops| - 1];
      assert forall i :: 0 <= i < |front| ==> front[..i] == ops[..i];
      RunRefinesSet(front);
      StepKeepsClean(Run(EMPTY, front), op);
      TableRefinesSet(Run(EMPTY, front), op);
    }
  }

  /**
   What goes wrong otherwise: the foreign string is refused as a duplicate without being a name of the
   table, and the empty name is no longer refused.
   */
  lemma ForeignRow(t: Table, name: string, beyond: string)
    requires Clean(t) && ReadsBeyond(t, Remove(name, beyond)) && beyond !in Names(t)
    ensures var t' := Apply(t, Remove(name, beyond)).0;
            && InOrder(t') && beyond !in Names(t')
            && !Apply(t', Add(beyond)).1
            && Apply(t', Add("")).1
  {
    var k := Index(t, name, 0);
    StepKeepsOrder(t, Remove(name, beyond));
    RemovedRows(t, k, beyond);
    var t' := RemovedAt(t, k, beyond);
    assert t'.rows[t'.cnt] == beyond;
    assert "" !in t'.rows;
  }

  /** The name of `k + 1` letters `a`. */
  function LetterName(k: nat): string { seq(k + 1, _ => 'a') }

  function Fill(k: nat): seq<Op> { seq(k, i requires 0 <= i < k => Add(LetterName(i))) }

  ghost predicate Filled(t: Table, k: nat) {
    Clean(t) && t.cnt == k && forall n :: n in Names(t) ==> n != "" && n[0] == 'a' && |n| <= k
  }

  lemma FillOneMore(t: Table, k: nat)
    requires Filled(t, k) && k < MAX_CMD_CNT
    ensures Filled(Apply(t, Add(LetterName(k))).0, k + 1)
  {
    var op := Add(LetterName(k));
    DistinctCount(t.rows[..t.cnt]);
    CleanAddAllowed(t, op.name);
    StepKeepsOrder(t, op);
    StepKeepsClean(t, op);
  }

  /** Adding one name after the other fills the table, and it stays clean. */
  lemma {:induction false} FillIsClean(k: nat)
    requires k <= MAX_CMD_CNT
    ensures Filled(Run(EMPTY, Fill(k)), k)
  {
    if k > 0 {
      FillIsClean(k - 1);
      assert Fill(k)[..k - 1] == Fill(k - 1) && Fill(k)[k - 1] == Add(LetterName(k - 1));
      FillOneMore(Run(EMPTY, Fill(k - 1)), k - 1);
    }
  }

  /** A full table is reached by adds alone, and any removal but that of the last row then reads beyond it. */
  lemma ForeignRowIsReachable(beyond: string) returns (t: Table, name: string)
    requires beyond != "" && beyond[0] != 'a'
    ensures t == Run(EMPTY, Fill(MAX_CMD_CNT)) && Clean(t) && name in Names(t)
    ensures ReadsBeyond(t, Remove(name, beyond)) && beyond !in Names(t)
  {
    FillIsClean(MAX_CMD_CNT);
    t := Run(EMPTY, Fill(MAX_CMD_CNT));
    name := t.rows[0];
    assert t.rows[..t.cnt][0] == name;
  }

  /** Completion is in order: the names given out before one are exactly the smaller ones. */
  lemma CompletionAscends(t: Table, idx: nat, name: string)
    requires InOrder(t) && idx < t.cnt && name in Names(t)
    ensures Less(name, t.rows[idx]) <==> name in t.rows[..idx]
  {
    var u := t.rows[..t.cnt];
    var i :| 0 <= i < t.cnt && u[i] == name;
    if i < idx {
      assert t.rows[..idx][i] == name;
    } else if i > idx {
      assert Less(u[idx], u[i]);
    }
    if Less(name, u[idx]) && i >= idx {
      LessIsStrict(u[idx]);
      if i > idx {
        LessIsTransitive(u[idx], name, u[idx]);
      }
      assert false;
    }
    if name in t.rows[..idx] {
      var j :| 0 <= j < idx && t.rows[..idx][j] == name;
      assert Less(u[j], u[idx]);
    }
  }

  ghost function Smaller(t: Table, name: string): set<string>
    requires t.cnt <= |t.rows|
  {
    set n | n in Names(t) && Less(n, name)
  }

  /** So entry number `idx` is the name with `idx` smaller ones. */
  lemma CompletionRank(t: Table, idx: nat)
    requires InOrder(t) && idx < t.cnt
    ensures t.rows[idx] in Names(t) && |Smaller(t, t.rows[idx])| == idx
    ensures |Names(t)| == t.cnt
  {
    var before := t.rows[..idx];
    assert t.rows[..t.cnt][idx] == t.rows[idx] && before == t.rows[..t.cnt][..idx];
    assert t.rows[..t.cnt] == before + t.rows[idx..t.cnt];
    forall n | n in Names(t) ensures Less(n, t.rows[idx]) <==> n in before {
      CompletionAscends(t, idx, n);
    }
    assert Smaller(t, t.rows[idx]) == set n | n in before;
    DistinctCount(before);
    DistinctCount(t.rows[..t.cnt]);
  }

  // The operations in place

  class DynamicCommands {
    const rows: array<string>
    var cnt: nat

    /** Room for the rows in use. */
    ghost predicate Sized()
      reads this
    {
      rows.Length == MAX_CMD_CNT && cnt <= MAX_CMD_CNT
    }

    ghost predicate Valid()
      reads this, rows
    {
      Sized() && InOrder(Value())
    }

    ghost function Value(): Table
      reads this, rows
    {
      Table(rows[..], cnt)
    }

    constructor ()
      ensures Valid() && fresh(rows) && Value() == EMPTY
    {
      rows := new string[MAX_CMD_CNT](_ => "");
      cnt := 0;
      new;
      assert rows[..] == EMPTY.rows;
      AlwaysInOrder([]);
    }

    /** Sort the rows in use, by whatever means. */
    method Qsort()
      requires Sized()
      modifies rows
      ensures rows[..] == SortAll(old(rows[..cnt])) + old(rows[cnt..])
    {
      var sorted := SortAll(rows[..cnt]);
      SortAllLength(rows[..cnt]);
      forall i | 0 <= i < cnt {
        rows[i] := sorted[i];
      }
      assert rows[..cnt] == sorted && rows[cnt..] == old(rows[cnt..]);
    }

    method CmdAdd(name: string) returns (ok: bool)
      requires Valid()
      modifies this, rows
      ensures Valid() && (Value(), ok) == Apply(old(Value()), Add(name))
    {
      if cnt >= MAX_CMD_CNT {
        return false;
      }
      if |name| >= MAX_CMD_LEN {
        return false;
      }
      for idx := 0 to |name|
        invariant forall k :: 0 <= k < idx ==> IsAlnum(name[k])
      {
        if !IsAlnum(name[idx]) {
          return false;
        }
      }
      for idx := 0 to MAX_CMD_CNT
        invariant name !in rows[..idx]
      {
        if rows[idx] == name {
          assert rows[..][idx] == name;
          return false;
        }
      }
      assert rows[..] == rows[..MAX_CMD_CNT];
      rows[cnt] := name;
      cnt := cnt + 1;
      assert rows[..cnt] == old(rows[..cnt]) + [name] && rows[cnt..] == old(rows[..])[cnt..];
      Qsort();
      StepKeepsOrder(old(Value()), Add(name));
      ok := true;
    }

    method CmdExecute(name: string) returns (ok: bool)
      requires Valid()
      ensures ok <==> name in Names(Value())
    {
      for idx := 0 to cnt
        invariant name !in rows[..idx]
      {
        if rows[idx] == name {
          assert rows[..cnt][idx] == name;
          return true;
        }
      }
      assert rows[..][..cnt] == rows[..cnt];
      ok := false;
    }

    /** Take row `idx` out; `beyond` is what memory holds behind the last row. */
    method ShiftDown(idx: nat, beyond: string)
      requires Valid() && idx < cnt
      modifies this, rows
      ensures Valid() && Value() == RemovedAt(old(Value()), idx, beyond)
    {
      ghost var t := Value();
      if idx == MAX_CMD_CNT - 1 {
        rows[idx] := "";
      } else {
        forall i | idx <= i < cnt {
          rows[i] := if i + 1 < MAX_CMD_CNT then rows[i + 1] else beyond;
        }
      }
      cnt := cnt - 1;
      RemovedRows(t, idx, beyond);
      assert forall i :: 0 <= i < MAX_CMD_CNT ==> rows[i] == RemovedAt(t, idx, beyond).rows[i];
      assert rows[..] == RemovedAt(t, idx, beyond).rows;
      RemoveKeeps(t, idx, beyond);
    }

    method CmdRemove(name: string, beyond: string) returns (ok: bool)
      requires Valid()
      modifies this, rows
      ensures Valid() && (Value(), ok) == Apply(old(Value()), Remove(name, beyond))
    {
      ghost var t := Value();
      for idx := 0 to cnt
        invariant Value() == t && Index(t, name, 0) == Index(t, name, idx)
      {
        assert rows[idx] == t.rows[idx];
        if rows[idx] == name {
          ShiftDown(idx, beyond);
          return true;
        }
      }
      ok := false;
    }

    /** Completion asks for the names one by one: entry `idx` is the name with `idx` smaller ones. */
    method CmdGet(idx: nat) returns (entry: string, found: bool)
      requires Valid()
      ensures found <==> idx < |Names(Value())|
      ensures found ==> entry in Names(Value()) && |Smaller(Value(), entry)| == idx
    {
      found := idx < cnt;
      entry := if found then rows[idx] else "";
      DistinctCount(Value().rows[..cnt]);
      if found {
        CompletionRank(Value(), idx);
      }
    }
  }
}
