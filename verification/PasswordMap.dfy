/** The server's list of users: loading it from a text buffer cut up in place, looking it up, and counting retries. */
module PasswordMap {

  const NUL: char := '\0'
  const NAME_SIZE := 32
  const MAX_PASSWD_RETRY := 3

  type Digest = seq<bv8>

  datatype Kind = Password | PublicKey | Other

  /** A record of the list; of the secret only the hash is kept. */
  datatype Entry = Entry(kind: Kind, name: string, digest: Digest)

  datatype Pair = Pair(name: string, password: string)

  datatype Option<T> = None | Some(value: T)

  // The text form

  /** Position of the first `c`, or the length. */
  function Find(s: string, c: char): (k: nat)
    ensures k <= |s| && c !in s[..k] && (k < |s| ==> s[k] == c)
  {
    if s == "" || s[0] == c then 0
    else
      var k := Find(s[1..], c);
      assert s[..k + 1] == [s[0]] + s[1..][..k];
      k + 1
  }

  datatype Loaded = Loaded(pairs: seq<Pair>, complete: bool)

  /** The records at the front of a text, up to the first line that is not one. */
  function Load(s: string): Loaded {
    if s == "" then Loaded([], true)
    else
      var d := Find(s, ':');
      if d == |s| then Loaded([], false)
      else
        var rest := s[d + 1..];
        var n := Find(rest, '\n');
        if n == |rest| then Loaded([], false)
        else
          var more := Load(rest[n + 1..]);
          Loaded([Pair(s[..d], rest[..n])] + more.pairs, more.complete)
  }

  function PrintPair(p: Pair): string { p.name + ":" + p.password + "\n" }

  function Print(pairs: seq<Pair>): string {
    if pairs == [] then "" else PrintPair(pairs[0]) + Print(pairs[1..])
  }

  /** What the separators demand: a name may even hold a newline, and a password a colon. */
  predicate Printable(p: Pair) { ':' !in p.name && '\n' !in p.password }

  predicate AllPrintable(pairs: seq<Pair>) { forall i :: 0 <= i < |pairs| ==> Printable(pairs[i]) }

  lemma {:induction false} FindIs(s: string, c: char, k: nat)
    requires k < |s| && s[k] == c && c !in s[..k]
    ensures Find(s, c) == k
  {
    if k > 0 {
      assert s[..k][0] == s[0] && s[1..][..k - 1] == s[..k][1..];
      FindIs(s[1..], c, k - 1);
    }
  }

  lemma SplitAt(before: string, c: char, after: string)
    requires c !in before
    ensures var s := before + [c] + after;
            Find(s, c) == |before| < |s| && s[..|before|] == before && s[|before| + 1..] == after
  {
    var s := before + [c] + after;
    assert s[..|before|] == before && s[|before|] == c;
    FindIs(s, c, |before|);
  }

  lemma PairSplit(p: Pair, tail: string)
    ensures PrintPair(p) + tail == p.name + ":" + (p.password + "\n" + tail)
  {}

  /** The first record of a text that starts with a printed pair is that pair. */
  lemma LoadStep(p: Pair, tail: string)
    requires Printable(p)
    ensures Load(PrintPair(p) + tail) == Loaded([p] + Load(tail).pairs, Load(tail).complete)
  {
    PairSplit(p, tail);
    SplitAt(p.name, ':', p.password + "\n" + tail);
    SplitAt(p.password, '\n', tail);
  }

  lemma PrintFront(pairs: seq<Pair>, tail: string)
    requires pairs != []
    ensures Print(pairs) + tail == PrintPair(pairs[0]) + (Print(pairs[1..]) + tail)
  {
    var a, b := PrintPair(pairs[0]), Print(pairs[1..]);
    assert (a + b) + tail == a + (b + tail);
  }

  lemma Front<T>(s: seq<T>, tail: seq<T>)
    requires s != []
    ensures [s[0]] + (s[1..] + tail) == s + tail
  {
  }

  /** Round trip: the printed form of any list of pairs loads as that list. */
  lemma {:induction false} PrintedFormLoads(pairs: seq<Pair>, tail: string)
    requires AllPrintable(pairs)
    ensures Load(Print(pairs) + tail) == Loaded(pairs + Load(tail).pairs, Load(tail).complete)
  {
    if pairs == [] {
      assert Print(pairs) + tail == tail && pairs + Load(tail).pairs == Load(tail).pairs;
    } else {
      PrintedFormLoads(pairs[1..], tail);
      PrintFront(pairs, tail);
      LoadStep(pairs[0], Print(pairs[1..]) + tail);
      Front(pairs, Load(tail).pairs);
    }
  }

  lemma PrintedTextLoads(pairs: seq<Pair>)
    requires AllPrintable(pairs)
    ensures Load(Print(pairs)) == Loaded(pairs, true)
  {
    PrintedFormLoads(pairs, "");
    assert Print(pairs) + "" == Print(pairs) && pairs + [] == pairs;
  }

  /** A text in which no record can be completed. */
  predicate NoRecord(s: string) {
    var d := Find(s, ':');
    d == |s| || '\n' !in s[d + 1..]
  }

  lemma CutAt(s: string, c: char) returns (before: string, after: string)
    requires c in s
    ensures s == before + [c] + after && c !in before
    ensures before == s[..Find(s, c)] && after == s[Find(s, c) + 1..]
  {
    var d := Find(s, c);
    assert s[..|s|] == s;
    before, after := s[..d], s[d + 1..];
  }

  lemma Joined(a: string, b: string, c: string, d: string, e: string)
    ensures a + b + (c + d + e) == (a + b + c + d) + e
  {
  }

  /** A text that holds a record starts with a printed pair. */
  lemma RecordAtFront(s: string) returns (p: Pair, more: string)
    requires !NoRecord(s)
    ensures Printable(p) && s == PrintPair(p) + more
  {
    var name, rest := CutAt(s, ':');
    var password;
    password, more := CutAt(rest, '\n');
    p := Pair(name, password);
    Joined(name, ":", password, "\n", more);
  }

  lemma LoadStops(s: string)
    requires NoRecord(s)
    ensures Load(s) == Loaded([], s == "")
  {
    if s != "" {
      var d := Find(s, ':');
      if d < |s| {
        var n := Find(s[d + 1..], '\n');
        assert n == |s[d + 1..]|;
      }
    }
  }

  lemma PrintCons(p: Pair, pairs: seq<Pair>, tail: string)
    ensures Print([p] + pairs) + tail == PrintPair(p) + (Print(pairs) + tail)
  {
    assert ([p] + pairs)[1..] == pairs;
    PrintFront([p] + pairs, tail);
  }

  /** The other direction: what is loaded prints as the text, but for a tail that holds no record. */
  lemma {:induction false} LoadedPrintsBack(s: string) returns (tail: string)
    ensures AllPrintable(Load(s).pairs)
    ensures s == Print(Load(s).pairs) + tail && NoRecord(tail)
    ensures Load(s).complete <==> tail == ""
    decreases |s|
  {
    if NoRecord(s) {
      LoadStops(s);
      tail := s;
    } else {
      var p, more := RecordAtFront(s);
      LoadStep(p, more);
      tail := LoadedPrintsBack(more);
      PrintCons(p, Load(more).pairs, tail);
    }
  }

  // The list

  /** A name is cut to what its field can hold with a terminator. */
  function Truncate(name: string): string { if |name| >= NAME_SIZE then name[..NAME_SIZE - 1] else name }

  /** Names of up to 31 characters are kept, longer ones lose what is behind the 31st. */
  lemma TruncateMeans(name: string)
    ensures Truncate(name) <= name && |Truncate(name)| == if |name| < 32 then |name| else 31
  {}

  function Entered(hash: string -> Digest, p: Pair): Entry { Entry(Password, Truncate(p.name), hash(p.password)) }

  /** The records of the pairs in the order of the list, which is the last one loaded first. */
  function EnteredAll(hash: string -> Digest, pairs: seq<Pair>): seq<Entry> {
    if pairs == [] then [] else EnteredAll(hash, pairs[1..]) + [Entered(hash, pairs[0])]
  }

  lemma {:induction false} EnterOneMore(hash: string -> Digest, pairs: seq<Pair>, p: Pair)
    ensures EnteredAll(hash, pairs + [p]) == [Entered(hash, p)] + EnteredAll(hash, pairs)
  {
    if pairs != [] {
      assert (pairs + [p])[1..] == pairs[1..] + [p];
      EnterOneMore(hash, pairs[1..], p);
    }
  }

  /** Names of up to 31 characters are kept, so the records are the reversed pairs. */
  lemma {:induction false} EnteredIsReversed(hash: string -> Digest, pairs: seq<Pair>, k: nat)
    requires k < |pairs| && |pairs[k].name| < NAME_SIZE
    ensures |EnteredAll(hash, pairs)| == |pairs|
    ensures EnteredAll(hash, pairs)[|pairs| - 1 - k] == Entry(Password, pairs[k].name, hash(pairs[k].password))
  {
    if k > 0 {
      EnteredIsReversed(hash, pairs[1..], k - 1);
    } else {
      EnteredLength(hash, pairs);
    }
  }

  lemma EnteredLength(hash: string -> Digest, pairs: seq<Pair>)
    ensures |EnteredAll(hash, pairs)| == |pairs|
  {
  }

  predicate Matches(e: Entry, name: string, kind: Kind) { e.name == name && e.kind == kind }

  /** The first record of the list for a user. */
  function Lookup(entries: seq<Entry>, name: string, kind: Kind): Option<Entry> {
    if entries == [] then None
    else if Matches(entries[0], name, kind) then Some(entries[0])
    else Lookup(entries[1..], name, kind)
  }

  /** The record found is that of the pair loaded last for the name; without one, loading changed nothing. */
  lemma {:induction false} LastLoadedWins(hash: string -> Digest, pairs: seq<Pair>, before: seq<Entry>, name: string, i: int)
    requires -1 <= i < |pairs|
    requires i >= 0 ==> Truncate(pairs[i].name) == name
    requires forall j :: i < j < |pairs| ==> Truncate(pairs[j].name) != name
    ensures Lookup(EnteredAll(hash, pairs) + before, name, Password) ==
            if i >= 0 then Some(Entered(hash, pairs[i])) else Lookup(before, name, Password)
    decreases |pairs|
  {
    if pairs == [] {
      assert EnteredAll(hash, pairs) + before == before;
    } else {
      var first := [Entered(hash, pairs[0])];
      assert EnteredAll(hash, pairs) + before == EnteredAll(hash, pairs[1..]) + (first + before);
      assert (first + before)[1..] == before;
      LastLoadedWins(hash, pairs[1..], first + before, name, if i > 0 then i - 1 else -1);
    }
  }

  class PwMapList {
    const hash: string -> Digest
    var entries: seq<Entry>

    constructor (hash: string -> Digest)
      ensures entries == [] && this.hash == hash
    {
      this.hash, entries := hash, [];
    }

    method PwMapNew(kind: Kind, name: string, secret: string)
      modifies this
      ensures entries == [Entry(kind, Truncate(name), hash(secret))] + old(entries)
    {
      entries := [Entry(kind, Truncate(name), hash(secret))] + entries;
    }
  }

  // Cutting up a buffer in place

  /** There is a string from `from` to a terminator at `end`. */
  ghost predicate StringAt(buf: array<char>, from: int, end: int)
    reads buf
  {
    0 <= from <= end < buf.Length && buf[end] == NUL && NUL !in buf[from..end]
  }

  method StrChr(buf: array<char>, from: nat, c: char, ghost end: nat) returns (at: int)
    requires StringAt(buf, from, end) && c != NUL
    ensures if c in buf[from..end] then at == from + Find(buf[from..end], c) else at == -1
  {
    at := from;
    while buf[at] != c && buf[at] != NUL
      invariant from <= at <= end
      invariant forall k :: from <= k < at ==> buf[k] != c
      decreases end - at
    {
      assert buf[at] != buf[end];
      at := at + 1;
    }
    ghost var s := buf[from..end];
    assert forall k :: from <= k < end ==> buf[k] == s[k - from];
    if buf[at] == c {
      assert s[at - from] == c;
      FindIs(s, c, at - from);
    } else {
      assert at == end;
      at := -1;
    }
  }

  /** The string at `from`, as the copy and the hash of it see it. */
  method ReadString(buf: array<char>, from: nat, ghost end: nat) returns (s: string)
    requires StringAt(buf, from, end)
    ensures s == buf[from..end]
  {
    var n := 0;
    while buf[from + n] != NUL
      invariant from + n <= end
      decreases end - (from + n)
    {
      assert buf[from + n] != buf[end];
      n := n + 1;
    }
    assert forall k :: from <= k < end ==> buf[k] == buf[from..end][k - from];
    s := buf[from..from + n];
  }

  /** Search for a separator and turn it into a terminator. */
  method CutAtChar(buf: array<char>, from: nat, c: char, ghost end: nat) returns (at: int)
    requires StringAt(buf, from, end) && c != NUL
    modifies buf
    ensures at == -1 ==> c !in old(buf[from..end]) && buf[..] == old(buf[..])
    ensures at != -1 ==> StringAt(buf, from, at) && StringAt(buf, at + 1, end)
                         && c !in buf[from..at] && (forall k :: 0 <= k < from ==> buf[k] == old(buf[k]))
                         && old(buf[from..end]) == buf[from..at] + [c] + buf[at + 1..end]
  {
    at := StrChr(buf, from, c, end);
    if at != -1 {
      ghost var s := buf[from..end];
      assert forall k :: from <= k < end ==> buf[k] == s[k - from];
      buf[at] := NUL;
      assert buf[from..at] == s[..at - from] && buf[at + 1..end] == s[at + 1 - from..];
    }
  }

  /** The rest of a line, after its colon: a password up to the newline. */
  method CutPassword(buf: array<char>, start: nat, ghost end: nat) returns (next: int, password: string)
    requires StringAt(buf, start, end)
    modifies buf
    ensures next == -1 ==> '\n' !in old(buf[start..end])
    ensures next != -1 ==> start < next && StringAt(buf, next, end) && '\n' !in password
                           && old(buf[start..end]) == password + "\n" + buf[next..end]
    ensures forall k :: 0 <= k < start ==> buf[k] == old(buf[k])
  {
    password := "";
    var newline := CutAtChar(buf, start, '\n', end);
    if newline == -1 {
      assert forall k :: 0 <= k < buf.Length ==> buf[k] == buf[..][k];
      return -1, password;
    }
    password := ReadString(buf, start, newline);
    next := newline + 1;
  }

  /** Turn the separators of the next line into terminators; `next` is -1 when one of them is missing. */
  method CutLine(buf: array<char>, str: nat, ghost end: nat) returns (next: int, p: Pair)
    requires StringAt(buf, str, end)
    modifies buf
    ensures next == -1 ==> NoRecord(old(buf[str..end]))
    ensures next != -1 ==> str < next && StringAt(buf, next, end) && Printable(p)
                           && old(buf[str..end]) == PrintPair(p) + buf[next..end]
  {
    p := Pair("", "");
    ghost var s := buf[str..end];
    var delimiter := CutAtChar(buf, str, ':', end);
    if delimiter == -1 {
      NoColon(s);
      return -1, p;
    }
    ghost var cut, rest := buf[str..delimiter], buf[delimiter + 1..end];
    var password;
    next, password := CutPassword(buf, delimiter + 1, end);
    if next == -1 {
      NoNewline(s, cut, rest);
      return -1, p;
    }
    assert buf[str..delimiter] == cut;
    var name := ReadString(buf, str, delimiter);
    p := Pair(name, password);
    PairSplit(p, buf[next..end]);
  }

  lemma NoColon(s: string)
    requires ':' !in s
    ensures NoRecord(s)
  {
  }

  lemma NoNewline(s: string, name: string, rest: string)
    requires s == name + ":" + rest && ':' !in name && '\n' !in rest
    ensures NoRecord(s)
  {
    assert s[..|name|] == name;
    FindIs(s, ':', |name|);
    assert s[|name| + 1..] == rest;
  }

  /** The text is the printed form of the pairs loaded and what is still to be read. */
  ghost predicate LoadedSoFar(text: string, done: seq<Pair>, rest: string) {
    AllPrintable(done) && text == Print(done) + rest
  }

  lemma {:induction false} PrintSnoc(pairs: seq<Pair>, p: Pair)
    ensures Print(pairs + [p]) == Print(pairs) + PrintPair(p)
  {
    if pairs != [] {
      assert (pairs + [p])[1..] == pairs[1..] + [p];
      PrintSnoc(pairs[1..], p);
      assert PrintPair(pairs[0]) + (Print(pairs[1..]) + PrintPair(p)) == PrintPair(pairs[0]) + Print(pairs[1..]) + PrintPair(p);
    }
  }

  lemma LoadedOneMore(text: string, done: seq<Pair>, p: Pair, rest: string)
    requires LoadedSoFar(text, done, PrintPair(p) + rest) && Printable(p)
    ensures LoadedSoFar(text, done + [p], rest)
  {
    PrintSnoc(done, p);
    assert Print(done) + (PrintPair(p) + rest) == Print(done) + PrintPair(p) + rest;
  }

  lemma LoadingStops(text: string, done: seq<Pair>, rest: string)
    requires LoadedSoFar(text, done, rest) && NoRecord(rest)
    ensures Load(text) == Loaded(done, rest == "")
  {
    PrintedFormLoads(done, rest);
    LoadStops(rest);
    assert done + [] == done;
  }

  lemma NothingLeft()
    ensures NoRecord("")
  {
  }

  lemma EnterOntoList(hash: string -> Digest, done: seq<Pair>, p: Pair, before: seq<Entry>)
    ensures [Entered(hash, p)] + (EnteredAll(hash, done) + before) == EnteredAll(hash, done + [p]) + before
  {
    EnterOneMore(hash, done, p);
    assert [Entered(hash, p)] + (EnteredAll(hash, done) + before) == [Entered(hash, p)] + EnteredAll(hash, done) + before;
  }

  /** What the loop keeps: the list holds the pairs loaded so far and the text they were read from is used up. */
  ghost predicate Loading(text: string, done: seq<Pair>, rest: string, list: PwMapList, before: seq<Entry>)
    reads list
  {
    LoadedSoFar(text, done, rest) && list.entries == EnteredAll(list.hash, done) + before
  }

  /** One turn of the loop; `next` is -1 when there is no further record. */
  method LoadLine(buf: array<char>, list: PwMapList, str: nat, ghost end: nat,
                  ghost text: string, ghost done: seq<Pair>, ghost before: seq<Entry>)
    returns (next: int, ghost p: Pair)
    requires StringAt(buf, str, end) && Loading(text, done, buf[str..end], list, before)
    modifies buf, list
    ensures next == -1 ==> NoRecord(old(buf[str..end])) && list.entries == old(list.entries)
    ensures next != -1 ==> str < next && StringAt(buf, next, end)
                           && Loading(text, done + [p], buf[next..end], list, before)
  {
    var q;
    next, q := CutLine(buf, str, end);
    p := q;
    if next != -1 {
      EnterOntoList(list.hash, done, p, before);
      LoadedOneMore(text, done, p, buf[next..end]);
      list.PwMapNew(Password, q.name, q.password);
    }
  }

  method LoadLines(buf: array<char>, list: PwMapList, ghost end: nat) returns (ret: int, ghost done: seq<Pair>, ghost rest: string)
    requires StringAt(buf, 0, end)
    modifies buf, list
    ensures Loading(old(buf[0..end]), done, rest, list, old(list.entries)) && NoRecord(rest)
    ensures ret == if rest == "" then 0 else -1
  {
    ghost var text, before := buf[0..end], list.entries;
    done, rest := [], text;
    var str := 0;
    while buf[str] != NUL
      invariant StringAt(buf, str, end) && rest == buf[str..end]
      invariant Loading(text, done, rest, list, before)
      decreases end - str
    {
      ghost var p;
      var next;
      next, p := LoadLine(buf, list, str, end, text, done, before);
      if next == -1 {
        return -1, done, rest;
      }
      done, rest := done + [p], buf[next..end];
      str := next;
    }
    NothingLeft();
    ret := 0;
  }

  /** What the text up to the terminator holds is loaded, whether or not it is well formed to its end. */
  method LoadPasswordBuffer(buf: array?<char>, bufSz: nat, list: PwMapList?, ghost end: nat) returns (ret: int)
    requires buf != null && bufSz > 0 ==> StringAt(buf, 0, end)
    modifies buf, list
    ensures list == null ==> ret == -1
    ensures list != null && (buf == null || bufSz == 0) ==> ret == 0 && list.entries == old(list.entries)
    ensures list != null && buf != null && bufSz > 0 ==>
              && ret == (if Load(old(buf[0..end])).complete then 0 else -1)
              && list.entries == EnteredAll(list.hash, Load(old(buf[0..end])).pairs) + old(list.entries)
  {
    if list == null {
      return -1;
    }
    if buf == null || bufSz == 0 {
      return 0;
    }
    ghost var done, rest;
    ret, done, rest := LoadLines(buf, list, end);
    LoadingStops(old(buf[0..end]), done, rest);
  }

  // Authentication

  datatype Outcome =
    Success | Failure | WouldBlock | InvalidUser | InvalidPassword | InvalidPublicKey | InvalidAuthType | Rejected

  /** The method the client asks for, and the data that come with it, whose own kind is a field of its own. */
  datatype Request = Request(authType: Kind, kind: Kind, name: string, password: string, publicKey: string)

  datatype Counters = Counters(retry: int, wouldBlock: int)

  function Secret(rq: Request): string { if rq.authType.Password? then rq.password else rq.publicKey }

  /** The request reaches a record of the user for this kind of login, and its secret is not the one recorded. */
  predicate WrongPassword(hash: string -> Digest, entries: seq<Entry>, rq: Request) {
    && !rq.authType.Other? && rq.kind.Password?
    && var e := Lookup(entries, rq.name, Password);
       e.Some? && e.value.digest != hash(Secret(rq))
  }

  /** The answer to a request that is no wrong password: it does not depend on what came before. */
  function Memoryless(hash: string -> Digest, entries: seq<Entry>, rq: Request): Outcome {
    if rq.authType.Other? then Failure
    else
      match Lookup(entries, rq.name, rq.kind)
      case None => InvalidUser
      case Some(e) =>
        if rq.kind.Other? then InvalidAuthType
        else if e.digest == hash(Secret(rq)) then Success
        else InvalidPublicKey
  }

  function Answer(hash: string -> Digest, entries: seq<Entry>, c: Counters, rq: Request): (Outcome, Counters) {
    if c.wouldBlock > 0 then (WouldBlock, c.(wouldBlock := c.wouldBlock - 1))
    else if WrongPassword(hash, entries, rq) then
      (if c.retry - 1 > 0 then InvalidPassword else Rejected, c.(retry := c.retry - 1))
    else (Memoryless(hash, entries, rq), c)
  }

  /** A request succeeds exactly when the first record for its name and kind holds the hash of its secret. */
  lemma SuccessIff(hash: string -> Digest, entries: seq<Entry>, c: Counters, rq: Request)
    ensures Answer(hash, entries, c, rq).0 == Success
            <==> && c.wouldBlock <= 0 && !rq.authType.Other? && !rq.kind.Other?
                 && exists i :: FirstMatch(entries, rq.name, rq.kind, i)
                                && entries[i].digest == hash(if rq.authType == Password then rq.password else rq.publicKey)
  {
    var i := LookupIsFirst(entries, rq.name, rq.kind);
    assert i < |entries| ==> FirstMatch(entries, rq.name, rq.kind, i);
  }

  ghost predicate FirstMatch(entries: seq<Entry>, name: string, kind: Kind, i: int) {
    && 0 <= i < |entries| && entries[i].name == name && entries[i].kind == kind
    && forall j :: 0 <= j < i ==> entries[j].name != name || entries[j].kind != kind
  }

  lemma {:induction false} LookupIsFirst(entries: seq<Entry>, name: string, kind: Kind) returns (i: nat)
    ensures i <= |entries| && (forall j :: 0 <= j < i ==> !Matches(entries[j], name, kind))
    ensures i < |entries| ==> Matches(entries[i], name, kind)
    ensures Lookup(entries, name, kind) == if i < |entries| then Some(entries[i]) else None
  {
    i := 0;
    if entries != [] && !Matches(entries[0], name, kind) {
      var k := LookupIsFirst(entries[1..], name, kind);
      i := k + 1;
      assert forall j :: 0 < j < i ==> entries[j] == entries[1..][j - 1];
    }
  }

  /** A request whose kind and name have a record is answered by the first such record. */
  lemma KnownUserAnswer(hash: string -> Digest, entries: seq<Entry>, c: Counters, rq: Request, i: int)
    requires c.wouldBlock <= 0 && rq.authType != Other && FirstMatch(entries, rq.name, rq.kind, i)
    ensures var (a, c') := Answer(hash, entries, c, rq);
            var right := entries[i].digest == hash(if rq.authType == Password then rq.password else rq.publicKey);
            && (rq.kind == Other ==> a == InvalidAuthType)
            && (rq.kind == PublicKey ==> a == if right then Success else InvalidPublicKey)
            && (rq.kind == Password && right ==> a == Success)
            && (rq.kind == Password && !right ==> a == if c.retry > 1 then InvalidPassword else Rejected)
            && c' == c.(retry := if rq.kind == Password && !right then c.retry - 1 else c.retry)
  {
    var k := LookupIsFirst(entries, rq.name, rq.kind);
    assert k == i;
  }

  /** The other answers, none of which touches the retry counter. */
  lemma OtherAnswers(hash: string -> Digest, entries: seq<Entry>, c: Counters, rq: Request)
    ensures c.wouldBlock > 0 ==> Answer(hash, entries, c, rq) == (WouldBlock, c.(wouldBlock := c.wouldBlock - 1))
    ensures c.wouldBlock <= 0 && rq.authType == Other ==> Answer(hash, entries, c, rq) == (Failure, c)
    ensures c.wouldBlock <= 0 && rq.authType != Other && (forall i :: !FirstMatch(entries, rq.name, rq.kind, i)) ==>
              Answer(hash, entries, c, rq) == (InvalidUser, c)
  {
    var k := LookupIsFirst(entries, rq.name, rq.kind);
    assert k < |entries| ==> FirstMatch(entries, rq.name, rq.kind, k);
  }

  /** A public key is let in exactly when it is the key on record that hashes like it. */
  lemma PublicKeyLogsIn(hash: string -> Digest, entries: seq<Entry>, c: Counters, rq: Request, e: Entry)
    requires Lookup(entries, rq.name, PublicKey) == Some(e) && c.wouldBlock <= 0
    requires rq.authType == PublicKey && rq.kind == PublicKey
    ensures Answer(hash, entries, c, rq) == (if e.digest == hash(rq.publicKey) then Success else InvalidPublicKey, c)
  {}

  /** The counters after a series of requests. */
  function After(hash: string -> Digest, entries: seq<Entry>, c: Counters, rqs: seq<Request>): Counters {
    if rqs == [] then c
    else Answer(hash, entries, After(hash, entries, c, rqs[..|rqs| - 1]), rqs[|rqs| - 1]).1
  }

  /** How many wrong passwords there were from request `from` on. */
  function WrongCount(hash: string -> Digest, entries: seq<Entry>, rqs: seq<Request>, from: nat): nat {
    if |rqs| <= from then 0
    else WrongCount(hash, entries, rqs[..|rqs| - 1], from) + (if WrongPassword(hash, entries, rqs[|rqs| - 1]) then 1 else 0)
  }

  lemma {:induction false} CountersCount(hash: string -> Digest, entries: seq<Entry>, c: Counters, rqs: seq<Request>)
    ensures var after := After(hash, entries, c, rqs);
            var blocked: nat := if c.wouldBlock > 0 then c.wouldBlock else 0;
            && after.retry == c.retry - WrongCount(hash, entries, rqs, blocked)
            && after.wouldBlock == if |rqs| <= blocked then c.wouldBlock - |rqs| else if blocked > 0 then 0 else c.wouldBlock
  {
    if rqs != [] {
      CountersCount(hash, entries, c, rqs[..|rqs| - 1]);
    }
  }

  function Blocked(wouldBlock: int): nat { if wouldBlock > 0 then wouldBlock else 0 }

  /** The answer to request `i` of a session. */
  function AnswerAt(hash: string -> Digest, entries: seq<Entry>, wouldBlock: int, rqs: seq<Request>, i: nat): Outcome
    requires i < |rqs|
  {
    Answer(hash, entries, After(hash, entries, Counters(MAX_PASSWD_RETRY, wouldBlock), rqs[..i]), rqs[i]).0
  }

  /** The budget of a session: the first two wrong passwords can be retried, every later one is rejected. */
  lemma RetryBudget(hash: string -> Digest, entries: seq<Entry>, wouldBlock: int, rqs: seq<Request>, i: nat)
    requires i < |rqs|
    ensures var a, wrong := AnswerAt(hash, entries, wouldBlock, rqs, i), WrongPassword(hash, entries, rqs[i]);
            var earlier := WrongCount(hash, entries, rqs[..i], Blocked(wouldBlock));
            && (a == WouldBlock <==> i < Blocked(wouldBlock))
            && (a == InvalidPassword <==> i >= Blocked(wouldBlock) && wrong && earlier < 2)
            && (a == Rejected <==> i >= Blocked(wouldBlock) && wrong && earlier >= 2)
            && (i >= Blocked(wouldBlock) && !wrong ==> a == Memoryless(hash, entries, rqs[i]))
  {
    CountersCount(hash, entries, Counters(MAX_PASSWD_RETRY, wouldBlock), rqs[..i]);
  }

  function InvalidCount(hash: string -> Digest, entries: seq<Entry>, wouldBlock: int, rqs: seq<Request>): nat {
    if rqs == [] then 0
    else
      InvalidCount(hash, entries, wouldBlock, rqs[..|rqs| - 1])
      + if AnswerAt(hash, entries, wouldBlock, rqs, |rqs| - 1) == InvalidPassword then 1 else 0
  }

  /** A session gives as many chances to retry as it sees wrong passwords, but two at most. */
  lemma {:induction false} TwoRetriesAtMost(hash: string -> Digest, entries: seq<Entry>, wouldBlock: int, rqs: seq<Request>)
    ensures var wrong := WrongCount(hash, entries, rqs, Blocked(wouldBlock));
            InvalidCount(hash, entries, wouldBlock, rqs) == if wrong < 2 then wrong else 2
  {
    if rqs != [] {
      TwoRetriesAtMost(hash, entries, wouldBlock, rqs[..|rqs| - 1]);
      RetryBudget(hash, entries, wouldBlock, rqs, |rqs| - 1);
    }
  }

  lemma LoadedUserLogsIn(hash: string -> Digest, entries: seq<Entry>, p: Pair, rq: Request, c: Counters)
    requires |p.name| < NAME_SIZE && Lookup(entries, p.name, Password) == Some(Entered(hash, p))
    requires rq.authType.Password? && rq.kind.Password? && rq.name == p.name && c.wouldBlock <= 0
    ensures var a := Answer(hash, entries, c, rq).0;
            && (a == Success <==> hash(rq.password) == hash(p.password))
            && (a != Success ==> a == InvalidPassword || a == Rejected)
  {
  }

  /** From the file to the login: a password is accepted exactly when it hashes like the last one printed for the name. */
  lemma PrintedUserLogsIn(hash: string -> Digest, pairs: seq<Pair>, before: seq<Entry>, i: nat, rq: Request, c: Counters)
    requires AllPrintable(pairs) && i < |pairs| && |pairs[i].name| < NAME_SIZE
    requires forall j :: i < j < |pairs| ==> Truncate(pairs[j].name) != pairs[i].name
    requires rq.authType.Password? && rq.kind.Password? && rq.name == pairs[i].name && c.wouldBlock <= 0
    ensures var entries := EnteredAll(hash, Load(Print(pairs)).pairs) + before;
            var a := Answer(hash, entries, c, rq).0;
            && (a == Success <==> hash(rq.password) == hash(pairs[i].password))
            && (a != Success ==> a == InvalidPassword || a == Rejected)
  {
    PrintedTextLoads(pairs);
    LastLoadedWins(hash, pairs, before, rq.name, i);
    LoadedUserLogsIn(hash, EnteredAll(hash, pairs) + before, pairs[i], rq, c);
  }

  class AuthServer {
    var passwdRetry: int
    var userAuthWouldBlock: int

    constructor (wouldBlock: int)
      ensures passwdRetry == MAX_PASSWD_RETRY && userAuthWouldBlock == wouldBlock
    {
      passwdRetry, userAuthWouldBlock := MAX_PASSWD_RETRY, wouldBlock;
    }

    function State(): Counters
      reads this
    {
      Counters(passwdRetry, userAuthWouldBlock)
    }

    /** A worker starts serving a connection. */
    method StartSession()
      modifies this`passwdRetry
      ensures passwdRetry == MAX_PASSWD_RETRY
    {
      passwdRetry := MAX_PASSWD_RETRY;
    }

    method UserAuth(rq: Request, list: PwMapList?) returns (outcome: Outcome)
      modifies this
      ensures list == null ==> outcome == Failure && State() == old(State())
      ensures list != null ==> (outcome, State()) == Answer(list.hash, list.entries, old(State()), rq)
    {
      if list == null {
        return Failure;
      }
      if userAuthWouldBlock > 0 {
        userAuthWouldBlock := userAuthWouldBlock - 1;
        return WouldBlock;
      }
      if rq.authType != Password && rq.authType != PublicKey {
        return Failure;
      }
      var authHash := list.hash(if rq.authType == Password then rq.password else rq.publicKey);
      var i := 0;
      while i < |list.entries|
        invariant i <= |list.entries| && State() == old(State())
        invariant Lookup(list.entries, rq.name, rq.kind) == Lookup(list.entries[i..], rq.name, rq.kind)
      {
        var e := list.entries[i];
        if e.name == rq.name && rq.kind == e.kind {
          if rq.kind == PublicKey {
            return if e.digest == authHash then Success else InvalidPublicKey;
          } else if rq.kind == Password {
            if e.digest == authHash {
              return Success;
            }
            passwdRetry := passwdRetry - 1;
            return if passwdRetry > 0 then InvalidPassword else Rejected;
          } else {
            return InvalidAuthType;
          }
        }
        i := i + 1;
      }
      outcome := InvalidUser;
    }

    /** The password logins of one connection, from the start of its worker on. */
    method Session(rqs: seq<Request>, list: PwMapList) returns (answers: seq<Outcome>)
      modifies this
      ensures |answers| == |rqs|
      ensures forall i :: 0 <= i < |rqs| ==> answers[i] == AnswerAt(list.hash, list.entries, old(userAuthWouldBlock), rqs, i)
    {
      ghost var hash, entries, start := list.hash, list.entries, Counters(MAX_PASSWD_RETRY, userAuthWouldBlock);
      StartSession();
      answers := [];
      for i := 0 to |rqs|
        invariant |answers| == i && State() == After(hash, entries, start, rqs[..i])
        invariant list.hash == hash && list.entries == entries
        invariant forall j :: 0 <= j < i ==> answers[j] == AnswerAt(hash, entries, old(userAuthWouldBlock), rqs, j)
      {
        var answer := UserAuth(rqs[i], list);
        assert rqs[..i + 1][..i] == rqs[..i];
        answers := answers + [answer];
      }
    }
  }
}
