/** The program activity index and its pages (runtime/src/storage.rs): keys whose byte order is
    the numeric order of (height, kind, transaction), listed newest first a page at a time. */
module ActivityPaging {
  import opened Wrappers
  import opened Bytes

  type Data = seq<Byte>

  const CURSOR_SIZE := 17
  const PROGRAM_ID_SIZE := 32

  datatype Entry = Entry(height: nat, transaction: Option<nat>)

  // ----- keys -----

  function BigEndian(n: nat, size: nat): (s: Data)
    ensures |s| == size
    decreases size
  {
    if size == 0 then [] else BigEndian(n / 256, size - 1) + [n % 256]
  }

  lemma {:induction false} BigEndianValue(n: nat, size: nat)
    requires n < Pow256(size)
    ensures Value(BigEndian(n, size)) == n
    decreases size
  {
    if size > 0 {
      BigEndianValue(n / 256, size - 1);
      ValueSnoc(BigEndian(n / 256, size - 1), n % 256);
    }
  }

  predicate IsEntry(e: Entry) {
    e.height < Pow256(8) && (e.transaction.Some? ==> e.transaction.value < Pow256(8))
  }

  function Cursor(e: Entry): (s: Data)
    ensures |s| == CURSOR_SIZE
  {
    match e.transaction
    case None => BigEndian(e.height, 8) + [0] + BigEndian(0, 8)
    case Some(i) => BigEndian(e.height, 8) + [1] + BigEndian(i, 8)
  }

  /** `encode_program_activity_key`. */
  function Key(program: Data, e: Entry): Data {
    program + Cursor(e)
  }

  function Kind(e: Entry): nat {
    if e.transaction.None? then 0 else 1
  }

  function Index(e: Entry): nat {
    if e.transaction.None? then 0 else e.transaction.value
  }

  /** Numeric order of (height, kind, transaction). */
  predicate Before(a: Entry, b: Entry) {
    || a.height < b.height
    || (a.height == b.height && Kind(a) < Kind(b))
    || (a.height == b.height && Kind(a) == Kind(b) && Index(a) < Index(b))
  }

  lemma CursorValue(e: Entry)
    requires IsEntry(e)
    ensures Value(Cursor(e)) == (e.height * 256 + Kind(e)) * Pow256(8) + Index(e)
  {
    hide Value, Pow256, BigEndian;
    var head := BigEndian(e.height, 8);
    ZeroFits();
    BigEndianValue(e.height, 8);
    BigEndianValue(Index(e), 8);
    ValueSnoc(head, Kind(e));
    ValueAppend(head + [Kind(e)], BigEndian(Index(e), 8));
  }

  lemma ZeroFits()
    ensures 0 < Pow256(8)
  {
  }

  /** Byte order of keys is numeric order of what they encode. */
  lemma CursorOrder(a: Entry, b: Entry)
    requires IsEntry(a) && IsEntry(b)
    ensures LexLess(Cursor(a), Cursor(b)) <==> Before(a, b)
  {
    hide Value, Pow256, Cursor, LexLess;
    ZeroFits();
    CursorValue(a);
    CursorValue(b);
    LexIsNumeric(Cursor(a), Cursor(b));
    LeadingDigit(a.height * 256 + Kind(a), Index(a), b.height * 256 + Kind(b), Index(b), Pow256(8));
  }

  /** What a page reads out of a cursor. */
  function Decode(cursor: Data): Option<Entry>
    requires |cursor| == CURSOR_SIZE
  {
    var height := Value(cursor[..8]);
    if cursor[8] == 0 then Some(Entry(height, None))
    else if cursor[8] == 1 then Some(Entry(height, Some(Value(cursor[9..]))))
    else None
  }

  lemma DecodeCursor(e: Entry)
    requires IsEntry(e)
    ensures Decode(Cursor(e)) == Some(e)
  {
    hide Value, Pow256, BigEndian;
    ZeroFits();
    BigEndianValue(e.height, 8);
    BigEndianValue(Index(e), 8);
    assert Cursor(e)[..8] == BigEndian(e.height, 8) && Cursor(e)[8] == Kind(e) && Cursor(e)[9..] == BigEndian(Index(e), 8);
  }

  // ----- the table -----

  predicate Sizes(table: seq<Data>) {
    forall i :: 0 <= i < |table| ==> |table[i]| == PROGRAM_ID_SIZE + CURSOR_SIZE
  }

  ghost predicate AllKeys(table: seq<Data>) {
    forall i :: 0 <= i < |table| ==> IsKey(table[i])
  }

  /** Index keys in the table's own order. */
  ghost predicate IsTable(table: seq<Data>) {
    && Sizes(table) && AllKeys(table)
    && (forall i, j :: 0 <= i < j < |table| ==> LexLess(table[i], table[j]))
  }

  ghost predicate IsKey(key: Data) {
    |key| == PROGRAM_ID_SIZE + CURSOR_SIZE && exists e :: IsEntry(e) && key[PROGRAM_ID_SIZE..] == Cursor(e)
  }

  /** In the table range the page scans: from the program's lowest key to the cursor, or to its
      highest, both inclusive. */
  predicate InRange(key: Data, program: Data, before: Option<Data>) {
    && !LexLess(key, program + Zeros(CURSOR_SIZE))
    && !LexLess(program + (if before.Some? then before.value else Highest()), key)
  }

  function Highest(): (s: Data)
    ensures |s| == CURSOR_SIZE && forall i :: 0 <= i < CURSOR_SIZE ==> s[i] == 255
  {
    seq(CURSOR_SIZE, i => 255)
  }

  lemma {:induction false} LexSplit(a: Data, x: Data, b: Data, y: Data)
    requires |a| == |b| && |x| == |y|
    ensures LexLess(a + x, b + y) <==> LexLess(a, b) || (a == b && LexLess(x, y))
  {
    if a == [] {
      assert a + x == x && b + y == y;
    } else {
      assert (a + x)[1..] == a[1..] + x && (b + y)[1..] == b[1..] + y;
      LexSplit(a[1..], x, b[1..], y);
      assert a == [a[0]] + a[1..] && b == [b[0]] + b[1..];
    }
  }

  lemma {:induction false} LexTotal(a: Data, b: Data)
    requires |a| == |b|
    ensures a == b || LexLess(a, b) || LexLess(b, a)
    ensures !(LexLess(a, b) && LexLess(b, a)) && !LexLess(a, a)
  {
    if a != [] {
      LexTotal(a[1..], b[1..]);
      assert a == [a[0]] + a[1..] && b == [b[0]] + b[1..];
    }
  }

  lemma {:induction false} LexBounds(s: Data, low: Data, high: Data)
    requires |low| == |s| == |high|
    requires forall i :: 0 <= i < |s| ==> low[i] == 0 && high[i] == 255
    ensures !LexLess(s, low) && !LexLess(high, s)
  {
    if s != [] {
      LexBounds(s[1..], low[1..], high[1..]);
    }
  }

  /** The scanned range holds exactly the program's keys up to the cursor. */
  lemma RangeIsPrefix(key: Data, program: Data, before: Option<Data>)
    requires |key| == PROGRAM_ID_SIZE + CURSOR_SIZE && |program| == PROGRAM_ID_SIZE
    requires before.Some? ==> |before.value| == CURSOR_SIZE
    ensures InRange(key, program, before) <==>
            key[..PROGRAM_ID_SIZE] == program && (before.Some? ==> !LexLess(before.value, key[PROGRAM_ID_SIZE..]))
  {
    hide LexLess;
    var p, x := key[..PROGRAM_ID_SIZE], key[PROGRAM_ID_SIZE..];
    var top := if before.Some? then before.value else Highest();
    assert key == p + x;
    LexSplit(p, x, program, Zeros(CURSOR_SIZE));
    LexSplit(program, top, p, x);
    LexTotal(p, program);
    LexBounds(x, Zeros(CURSOR_SIZE), Highest());
  }

  /** The program's cursors strictly below the given one, newest first. */
  function Select(table: seq<Data>, program: Data, before: Option<Data>): seq<Data>
    requires Sizes(table) && (before.Some? ==> |before.value| == CURSOR_SIZE)
  {
    if table == [] then []
    else
      var key := table[|table| - 1];
      var rest := Select(table[..|table| - 1], program, before);
      if Wanted(key, program, before) then [key[PROGRAM_ID_SIZE..]] + rest else rest
  }

  predicate Wanted(key: Data, program: Data, before: Option<Data>)
    requires |key| == PROGRAM_ID_SIZE + CURSOR_SIZE
    requires before.Some? ==> |before.value| == CURSOR_SIZE
  {
    key[..PROGRAM_ID_SIZE] == program && (before.Some? ==> LexLess(key[PROGRAM_ID_SIZE..], before.value))
  }

  predicate Readable(cursors: seq<Data>) {
    forall i :: 0 <= i < |cursors| ==> |cursors[i]| == CURSOR_SIZE && Decode(cursors[i]).Some?
  }

  function Entries(cursors: seq<Data>): seq<Entry>
    requires Readable(cursors)
  {
    if cursors == [] then [] else [Decode(cursors[0]).value] + Entries(cursors[1..])
  }

  datatype Page = Page(entries: seq<Entry>, next: Option<Data>)

  lemma {:induction false} SelectShape(table: seq<Data>, program: Data, before: Option<Data>)
    requires Sizes(table) && AllKeys(table) && (before.Some? ==> |before.value| == CURSOR_SIZE)
    ensures Readable(Select(table, program, before))
  {
    hide Decode, Cursor;
    if table != [] {
      SelectShape(table[..|table| - 1], program, before);
      var key := table[|table| - 1];
      assert IsKey(key);
      var e :| IsEntry(e) && key[PROGRAM_ID_SIZE..] == Cursor(e);
      DecodeCursor(e);
    }
  }

  /** The page the index answers: up to `limit` entries, and a cursor if there are more. */
  ghost predicate IsPage(table: seq<Data>, program: Data, before: Option<Data>, limit: nat, page: Page)
    requires IsTable(table) && limit > 0 && (before.Some? ==> |before.value| == CURSOR_SIZE)
  {
    SelectShape(table, program, before);
    var s := Select(table, program, before);
    ReadablePrefix(s, limit);
    if |s| <= limit then page == Page(Entries(s), None)
    else page == Page(Entries(s[..limit]), Some(s[limit - 1]))
  }

  /** The keys the scan comes across, from the highest: those in range but the cursor's own. */
  function Visited(table: seq<Data>, program: Data, before: Option<Data>): seq<Data> {
    if table == [] then []
    else
      var key := table[|table| - 1];
      var rest := Visited(table[..|table| - 1], program, before);
      if InRange(key, program, before) && !(before.Some? && key == program + before.value) then [key] + rest else rest
  }

  /** A key the page can show. */
  predicate WellFormed(key: Data, program: Data) {
    |key| == PROGRAM_ID_SIZE + CURSOR_SIZE && key[..PROGRAM_ID_SIZE] == program && Decode(key[PROGRAM_ID_SIZE..]).Some?
  }

  predicate AllFormed(keys: seq<Data>, program: Data) {
    forall i :: 0 <= i < |keys| ==> WellFormed(keys[i], program)
  }

  /** Keys without the program. */
  function Cursors(keys: seq<Data>, program: Data): (s: seq<Data>)
    requires AllFormed(keys, program)
    ensures |s| == |keys| && forall i :: 0 <= i < |keys| ==> s[i] == keys[i][PROGRAM_ID_SIZE..]
    ensures Readable(s)
  {
    if keys == [] then []
    else
      assert WellFormed(keys[|keys| - 1], program);
      Cursors(keys[..|keys| - 1], program) + [keys[|keys| - 1][PROGRAM_ID_SIZE..]]
  }

  function First<T>(s: seq<T>, n: nat): seq<T> {
    if |s| <= n then s else s[..n]
  }

  /** The page made of the keys looked at. */
  ghost predicate Shows(keys: seq<Data>, program: Data, limit: nat, page: Page)
    requires AllFormed(keys, program) && limit > 0
  {
    var s := Cursors(keys, program);
    ReadablePrefix(s, limit);
    if |s| <= limit then page == Page(Entries(s), None) else page == Page(Entries(s[..limit]), Some(s[limit - 1]))
  }

  /** `read_program_activities_page`, on any table: it fails exactly for limit zero or when one of
      the keys it has to look at (one more than the page takes) is malformed. On index keys it
      answers the page. */
  method ReadPage(table: seq<Data>, program: Data, before: Option<Data>, limit: nat) returns (o: Result<Page>)
    requires |program| == PROGRAM_ID_SIZE && (before.Some? ==> |before.value| == CURSOR_SIZE)
    ensures o.Success? <==> limit > 0 && AllFormed(First(Visited(table, program, before), limit + 1), program)
    ensures o.Success? ==> Shows(First(Visited(table, program, before), limit + 1), program, limit, o.value)
    ensures limit > 0 && IsTable(table) ==> o.Success? && IsPage(table, program, before, limit, o.value)
  {
    hide Decode, Cursor, LexLess, Select, AllKeys, Readable, Visited, AllFormed, IsPage;
    if limit == 0 {
      return Failure("program_id activity page limit must be greater than zero");
    }
    ghost var keys := First(Visited(table, program, before), limit + 1);
    if IsTable(table) {
      IndexKeysFormed(table, program, before, limit);
    }
    var scanned := Scan(table, program, before, limit);
    if scanned.Failure? {
      return Failure(scanned.reason);
    }
    var cursors := scanned.value;
    ReadablePrefix(cursors, limit);
    var more := |cursors| > limit;
    if more {
      cursors := cursors[..limit];
    }
    var next := if more then Some(cursors[limit - 1]) else None;
    var entries := DecodeAll(cursors);
    o := Success(Page(entries, next));
    if IsTable(table) {
      ShowsPage(table, program, before, limit, o.value);
    }
  }

  lemma {:induction false} VisitedIsSelect(table: seq<Data>, program: Data, before: Option<Data>)
    requires Sizes(table) && AllKeys(table) && |program| == PROGRAM_ID_SIZE && (before.Some? ==> |before.value| == CURSOR_SIZE)
    ensures AllFormed(Visited(table, program, before), program)
    ensures Cursors(Visited(table, program, before), program) == Select(table, program, before)
  {
    hide InRange, Visited, Select, Cursors, AllFormed, WellFormed, IsKey;
    assert table[..|table|] == table;
    if table == [] {
      VisitedNothing(program, before);
      NoCursors(program, before);
    } else {
      var n := |table| - 1;
      var key, rest := table[n], Visited(table[..n], program, before);
      VisitedIsSelect(table[..n], program, before);
      SelectStep(table, program, before, n);
      VisitedStep(table, program, before, n);
      assert IsKey(key);
      KeyParts(key, program, before);
      if InRange(key, program, before) {
        CursorsCons(key, rest, program);
      }
    }
  }

  lemma NoCursors(program: Data, before: Option<Data>)
    requires before.Some? ==> |before.value| == CURSOR_SIZE
    ensures AllFormed([], program) && Cursors([], program) == [] == Select([], program, before)
  {
  }

  lemma KeyParts(key: Data, program: Data, before: Option<Data>)
    requires IsKey(key) && |program| == PROGRAM_ID_SIZE && (before.Some? ==> |before.value| == CURSOR_SIZE)
    ensures InRange(key, program, before) ==> WellFormed(key, program)
    ensures InRange(key, program, before) && before.Some? ==> (key == program + before.value <==> key[PROGRAM_ID_SIZE..] == before.value)
  {
    hide Decode, Cursor, LexLess, InRange;
    RangeIsPrefix(key, program, before);
    var e :| IsEntry(e) && key[PROGRAM_ID_SIZE..] == Cursor(e);
    DecodeCursor(e);
    assert key == key[..PROGRAM_ID_SIZE] + key[PROGRAM_ID_SIZE..];
    if before.Some? {
      assert (program + before.value)[PROGRAM_ID_SIZE..] == before.value;
    }
  }

  lemma CursorsCons(key: Data, rest: seq<Data>, program: Data)
    requires WellFormed(key, program) && AllFormed(rest, program)
    ensures AllFormed([key] + rest, program) && Cursors([key] + rest, program) == [key[PROGRAM_ID_SIZE..]] + Cursors(rest, program)
  {
    hide WellFormed, Readable;
    var all := [key] + rest;
    assert all[0] == key && forall i :: 0 < i < |all| ==> all[i] == rest[i - 1];
  }

  lemma CursorsSnoc(keys: seq<Data>, key: Data, program: Data)
    requires AllFormed(keys, program) && WellFormed(key, program)
    ensures AllFormed(keys + [key], program) && Cursors(keys + [key], program) == Cursors(keys, program) + [key[PROGRAM_ID_SIZE..]]
  {
    hide WellFormed, Readable;
    var all := keys + [key];
    assert all[|keys|] == key && forall i :: 0 <= i < |keys| ==> all[i] == keys[i];
  }

  lemma IndexKeysFormed(table: seq<Data>, program: Data, before: Option<Data>, limit: nat)
    requires IsTable(table) && |program| == PROGRAM_ID_SIZE && (before.Some? ==> |before.value| == CURSOR_SIZE)
    ensures AllFormed(First(Visited(table, program, before), limit + 1), program)
  {
    hide WellFormed, Visited;
    VisitedIsSelect(table, program, before);
  }

  lemma ShowsPage(table: seq<Data>, program: Data, before: Option<Data>, limit: nat, page: Page)
    requires IsTable(table) && |program| == PROGRAM_ID_SIZE && limit > 0 && (before.Some? ==> |before.value| == CURSOR_SIZE)
    requires AllFormed(First(Visited(table, program, before), limit + 1), program)
    requires Shows(First(Visited(table, program, before), limit + 1), program, limit, page)
    ensures IsPage(table, program, before, limit, page)
  {
    hide Visited, Select, WellFormed, Decode, Readable;
    VisitedIsSelect(table, program, before);
    var keys, s := Visited(table, program, before), Select(table, program, before);
    var looked := Cursors(First(keys, limit + 1), program);
    if |s| <= limit {
      assert looked == s;
    } else {
      assert looked == s[..limit + 1];
      assert looked[..limit] == s[..limit];
    }
  }

  /** The scan loop, from the highest key in range down to one key more than the page takes. */
  method Scan(table: seq<Data>, program: Data, before: Option<Data>, limit: nat) returns (o: Result<seq<Data>>)
    requires |program| == PROGRAM_ID_SIZE && (before.Some? ==> |before.value| == CURSOR_SIZE)
    ensures o.Success? <==> AllFormed(First(Visited(table, program, before), limit + 1), program)
    ensures o.Success? ==> o.value == Cursors(First(Visited(table, program, before), limit + 1), program)
  {
    hide LexLess, Visited, InRange, Decode, Cursors, AllFormed;
    ghost var all := Visited(table, program, before);
    ghost var keys: seq<Data> := [];
    var cursors: seq<Data> := [];
    var i := |table|;
    assert table[..i] == table && keys + all == all;
    NoCursors(program, before);
    while i > 0 && |cursors| <= limit
      invariant 0 <= i <= |table| && |cursors| <= limit + 1
      invariant all == keys + Visited(table[..i], program, before)
      invariant AllFormed(keys, program) && cursors == Cursors(keys, program)
    {
      i := i - 1;
      var key := table[i];
      VisitedStep(table, program, before, i);
      if InRange(key, program, before) {
        ghost var rest := Visited(table[..i], program, before);
        if |key| != PROGRAM_ID_SIZE + CURSOR_SIZE || key[..PROGRAM_ID_SIZE] != program {
          NotFormed(keys, key, rest, program, limit);
          return Failure("stored program_id activity key is invalid");
        }
        var cursor := key[PROGRAM_ID_SIZE..];
        assert key == program + cursor;
        if before != Some(cursor) {
          if Decode(cursor).None? {
            NotFormed(keys, key, rest, program, limit);
            return Failure("stored program_id activity kind is invalid");
          }
          Associate3(keys, [key], rest);
          CursorsSnoc(keys, key, program);
          keys, cursors := keys + [key], cursors + [cursor];
        }
      }
    }
    VisitedNothing(program, before);
    assert table[..0] == [];
    Taken(keys, Visited(table[..i], program, before), limit);
    o := Success(cursors);
  }

  lemma NotFormed(keys: seq<Data>, key: Data, rest: seq<Data>, program: Data, limit: nat)
    requires |keys| <= limit && !WellFormed(key, program)
    ensures !AllFormed(First(keys + ([key] + rest), limit + 1), program)
  {
    var looked := First(keys + ([key] + rest), limit + 1);
    assert looked[|keys|] == key;
  }

  lemma VisitedStep(table: seq<Data>, program: Data, before: Option<Data>, i: nat)
    requires i < |table|
    ensures Visited(table[..i + 1], program, before) ==
            if InRange(table[i], program, before) && !(before.Some? && table[i] == program + before.value)
            then [table[i]] + Visited(table[..i], program, before) else Visited(table[..i], program, before)
  {
    assert table[..i + 1][..i] == table[..i];
  }

  lemma VisitedNothing(program: Data, before: Option<Data>)
    ensures Visited([], program, before) == []
  {
  }

  lemma Taken<T>(a: seq<T>, b: seq<T>, limit: nat)
    requires |a| <= limit + 1 && (|a| <= limit ==> b == [])
    ensures First(a + b, limit + 1) == a
  {
  }

  lemma ReadablePrefix(s: seq<Data>, n: nat)
    requires Readable(s)
    ensures n <= |s| ==> Readable(s[..n])
  {
  }

  lemma SelectStep(table: seq<Data>, program: Data, before: Option<Data>, i: nat)
    requires Sizes(table) && i < |table| && |program| == PROGRAM_ID_SIZE && (before.Some? ==> |before.value| == CURSOR_SIZE)
    ensures var cursor := table[i][PROGRAM_ID_SIZE..];
            Select(table[..i + 1], program, before) ==
            if InRange(table[i], program, before) && before != Some(cursor) then [cursor] + Select(table[..i], program, before)
            else Select(table[..i], program, before)
  {
    hide LexLess, InRange;
    RangeIsPrefix(table[i], program, before);
    SkipsEqual(table[i][PROGRAM_ID_SIZE..], before);
    assert table[..i + 1][..i] == table[..i];
  }

  lemma SkipsEqual(cursor: Data, before: Option<Data>)
    requires |cursor| == CURSOR_SIZE && (before.Some? ==> |before.value| == CURSOR_SIZE)
    ensures before.Some? ==> (LexLess(cursor, before.value) <==> !LexLess(before.value, cursor) && before != Some(cursor))
  {
    if before.Some? {
      LexTotal(cursor, before.value);
    }
  }

  method DecodeAll(cursors: seq<Data>) returns (entries: seq<Entry>)
    requires Readable(cursors)
    ensures entries == Entries(cursors)
  {
    hide Decode;
    entries := [];
    assert cursors[0..] == cursors;
    for i := 0 to |cursors|
      invariant entries + Entries(cursors[i..]) == Entries(cursors)
    {
      assert cursors[i..][1..] == cursors[i + 1..];
      entries := entries + [Decode(cursors[i]).value];
    }
  }

  // ----- pages partition the activities -----

  predicate Descending(s: seq<Data>) {
    && (forall i :: 0 <= i < |s| ==> |s[i]| == CURSOR_SIZE)
    && (forall i, j :: 0 <= i < j < |s| ==> LexLess(s[j], s[i]))
  }

  lemma SelectMembers(table: seq<Data>, program: Data, before: Option<Data>, x: Data)
    requires Sizes(table) && (before.Some? ==> |before.value| == CURSOR_SIZE) && |program| == PROGRAM_ID_SIZE && |x| == CURSOR_SIZE
    ensures x in Select(table, program, before) <==> program + x in table && (before.Some? ==> LexLess(x, before.value))
  {
    hide LexLess;
    if table != [] {
      var n := |table| - 1;
      SelectMembers(table[..n], program, before, x);
      var key := table[n];
      assert key == key[..PROGRAM_ID_SIZE] + key[PROGRAM_ID_SIZE..];
      assert (program + x)[..PROGRAM_ID_SIZE] == program && (program + x)[PROGRAM_ID_SIZE..] == x;
      assert table == table[..n] + [key];
    }
  }

  lemma {:induction false} SelectDescends(table: seq<Data>, program: Data, before: Option<Data>)
    requires IsTable(table) && (before.Some? ==> |before.value| == CURSOR_SIZE) && |program| == PROGRAM_ID_SIZE
    ensures Descending(Select(table, program, before))
  {
    hide LexLess, Cursor;
    if table != [] {
      var n := |table| - 1;
      var key, lower := table[n], Select(table[..n], program, before);
      SelectDescends(table[..n], program, before);
      assert IsKey(key);
      if Wanted(key, program, before) {
        forall j | 0 <= j < |lower| ensures LexLess(lower[j], key[PROGRAM_ID_SIZE..]) {
          SelectMembers(table[..n], program, before, lower[j]);
          var i :| 0 <= i < n && table[i] == program + lower[j];
          assert LexLess(table[i], key);
          assert key == program + key[PROGRAM_ID_SIZE..];
          LexSplit(program, lower[j], program, key[PROGRAM_ID_SIZE..]);
          LexTotal(program, program);
        }
      }
    }
  }

  /** Below a cursor of the list is the rest of the list. */
  lemma SelectRest(table: seq<Data>, program: Data, before: Option<Data>, k: nat)
    requires IsTable(table) && (before.Some? ==> |before.value| == CURSOR_SIZE) && |program| == PROGRAM_ID_SIZE
    requires k < |Select(table, program, before)|
    ensures |Select(table, program, before)[k]| == CURSOR_SIZE
    ensures Select(table, program, Some(Select(table, program, before)[k])) == Select(table, program, before)[k + 1..]
  {
    hide LexLess, Select, AllKeys;
    var s := Select(table, program, before);
    SelectDescends(table, program, before);
    SelectDescends(table, program, Some(s[k]));
    var t := Select(table, program, Some(s[k]));
    forall x: Data | |x| == CURSOR_SIZE ensures x in t <==> x in s[k + 1..] {
      SelectMembers(table, program, before, x);
      SelectMembers(table, program, Some(s[k]), x);
      SelectMembers(table, program, before, s[k]);
      TailMembers(s, k, x);
      if before.Some? && LexLess(x, s[k]) {
        LexTransitive(x, s[k], before.value);
      }
    }
    SameDescending(t, s[k + 1..]);
  }

  lemma {:induction false} LexTransitive(a: Data, b: Data, c: Data)
    requires |a| == |b| == |c| && LexLess(a, b) && LexLess(b, c)
    ensures LexLess(a, c)
  {
    if a[0] == b[0] == c[0] {
      LexTransitive(a[1..], b[1..], c[1..]);
    }
  }

  lemma TailMembers(s: seq<Data>, k: nat, x: Data)
    requires Descending(s) && k < |s| && |x| == CURSOR_SIZE
    ensures x in s[k + 1..] <==> x in s && LexLess(x, s[k])
  {
    hide LexLess;
    if x in s {
      var i :| 0 <= i < |s| && s[i] == x;
      LexTotal(x, s[k]);
      assert i > k ==> s[k + 1..][i - k - 1] == x;
    }
  }

  /** A descending list is determined by its members. */
  lemma {:induction false} SameDescending(a: seq<Data>, b: seq<Data>)
    requires Descending(a) && Descending(b)
    requires forall x: Data :: |x| == CURSOR_SIZE ==> (x in a <==> x in b)
    ensures a == b
  {
    hide LexLess;
    assert b != [] ==> b[0] in b;
    if a != [] {
      assert a[0] in a;
      var i :| 0 <= i < |b| && b[i] == a[0];
      var j :| 0 <= j < |a| && a[j] == b[0];
      LexTotal(a[0], b[0]);
      assert a[0] == b[0];
      forall x: Data | |x| == CURSOR_SIZE ensures x in a[1..] <==> x in b[1..] {
        TailMembers(a, 0, x);
        TailMembers(b, 0, x);
      }
      SameDescending(a[1..], b[1..]);
      assert a == [a[0]] + a[1..] && b == [b[0]] + b[1..];
    }
  }

  lemma {:induction false} EntriesAppend(a: seq<Data>, b: seq<Data>)
    requires Readable(a) && Readable(b)
    ensures Readable(a + b) && Entries(a + b) == Entries(a) + Entries(b)
  {
    hide Decode;
    if a == [] {
      assert a + b == b;
    } else {
      assert (a + b)[1..] == a[1..] + b;
      EntriesAppend(a[1..], b);
    }
  }

  /** Following `next` from the start: the pages, laid end to end, are the whole listing, and there
      are no more of them than it takes. */
  method ReadAll(table: seq<Data>, program: Data, limit: nat) returns (entries: seq<Entry>, pages: nat)
    requires IsTable(table) && |program| == PROGRAM_ID_SIZE && limit > 0
    ensures Readable(Select(table, program, None)) && entries == Entries(Select(table, program, None))
    ensures pages > 0 && |entries| <= pages * limit && (pages > 1 ==> (pages - 1) * limit < |entries|)
  {
    hide Select, AllKeys, Readable, LexLess, Decode, Entries;
    var before: Option<Data> := None;
    entries, pages := [], 0;
    SelectShape(table, program, None);
    var more := true;
    while more
      invariant before.Some? ==> |before.value| == CURSOR_SIZE
      invariant more ==> Continues(table, program, before, entries)
      invariant !more ==> Readable(Select(table, program, None)) && entries == Entries(Select(table, program, None))
      invariant more ==> |entries| == pages * limit && (pages > 0 ==> Select(table, program, before) != [])
      invariant !more ==> pages > 0 && |entries| <= pages * limit && (pages > 1 ==> (pages - 1) * limit < |entries|)
      decreases if more then 1 + |Select(table, program, before)| else 0
    {
      var o := ReadPage(table, program, before, limit);
      var page := o.value;
      PageAdvances(table, program, before, limit, page, entries);
      PageSize(table, program, before, limit, page);
      entries := entries + page.entries;
      pages := pages + 1;
      assert pages * limit == (pages - 1) * limit + limit;
      more := page.next.Some?;
      if more {
        before := page.next;
      }
    }
  }

  /** What was read and what lies below the cursor make up the whole listing. */
  ghost predicate Continues(table: seq<Data>, program: Data, before: Option<Data>, entries: seq<Entry>)
    requires Sizes(table) && (before.Some? ==> |before.value| == CURSOR_SIZE)
  {
    && Readable(Select(table, program, before)) && Readable(Select(table, program, None))
    && entries + Entries(Select(table, program, before)) == Entries(Select(table, program, None))
  }

  lemma PageAdvances(table: seq<Data>, program: Data, before: Option<Data>, limit: nat, page: Page, entries: seq<Entry>)
    requires IsTable(table) && |program| == PROGRAM_ID_SIZE && limit > 0 && (before.Some? ==> |before.value| == CURSOR_SIZE)
    requires IsPage(table, program, before, limit, page) && Continues(table, program, before, entries)
    ensures page.next.None? ==> entries + page.entries == Entries(Select(table, program, None))
    ensures page.next.Some? ==>
              && |page.next.value| == CURSOR_SIZE
              && Continues(table, program, page.next, entries + page.entries)
              && |Select(table, program, page.next)| < |Select(table, program, before)|
  {
    hide Select, Readable, LexLess, Decode, Entries;
    var s := Select(table, program, before);
    if |s| > limit {
      SelectRest(table, program, before, limit - 1);
      SelectShape(table, program, page.next);
      ReadablePrefix(s, limit);
      EntriesAppend(s[..limit], s[limit..]);
      assert s == s[..limit] + s[limit..];
      Associate3(entries, Entries(s[..limit]), Entries(s[limit..]));
    }
  }

  /** A page with a successor is full, and only an empty listing has an empty page. */
  lemma PageSize(table: seq<Data>, program: Data, before: Option<Data>, limit: nat, page: Page)
    requires IsTable(table) && |program| == PROGRAM_ID_SIZE && limit > 0 && (before.Some? ==> |before.value| == CURSOR_SIZE)
    requires IsPage(table, program, before, limit, page)
    ensures |page.entries| <= limit && (page.entries == [] ==> Select(table, program, before) == [])
    ensures page.next.Some? ==>
              |page.entries| == limit && |page.next.value| == CURSOR_SIZE && Select(table, program, page.next) != []
  {
    hide Select, Readable, LexLess, Decode, Entries;
    var s := Select(table, program, before);
    SelectShape(table, program, before);
    ReadablePrefix(s, limit);
    if |s| > limit {
      SelectRest(table, program, before, limit - 1);
      EntriesAt(s[..limit], 0);
    } else if s != [] {
      EntriesAt(s, 0);
    } else {
      NoEntries();
    }
  }

  lemma NoEntries()
    ensures Readable([]) && Entries([]) == []
  {
  }

  lemma Associate3<T>(a: seq<T>, b: seq<T>, c: seq<T>)
    ensures a + (b + c) == a + b + c
  {
  }

  lemma {:induction false} EntriesAt(s: seq<Data>, i: nat)
    requires Readable(s) && i < |s|
    ensures |Entries(s)| == |s| && Entries(s)[i] == Decode(s[i]).value
  {
    hide Decode;
    if |s| > 1 {
      EntriesAt(s[1..], if i > 0 then i - 1 else 0);
    }
  }

  /** The whole listing holds every activity of the program exactly once, in descending
      (height, kind, transaction) order. */
  lemma ListingMeaning(table: seq<Data>, program: Data)
    requires IsTable(table) && |program| == PROGRAM_ID_SIZE
    ensures Readable(Select(table, program, None))
    ensures var all := Entries(Select(table, program, None));
            && (forall i, j :: 0 <= i < j < |all| ==> Before(all[j], all[i]))
            && (forall e :: IsEntry(e) ==> (e in all <==> Key(program, e) in table))
  {
    hide Select, LexLess, Decode, Entries, Cursor, AllKeys;
    var s := Select(table, program, None);
    SelectShape(table, program, None);
    SelectDescends(table, program, None);
    var all := Entries(s);
    Lengths(s);
    forall i | 0 <= i < |all| ensures IsEntry(all[i]) && s[i] == Cursor(all[i]) {
      EntriesAt(s, i);
      Recovered(table, program, i);
    }
    forall i, j | 0 <= i < j < |all| ensures Before(all[j], all[i]) {
      CursorOrder(all[j], all[i]);
    }
    forall e | IsEntry(e) ensures e in all <==> Key(program, e) in table {
      SelectMembers(table, program, None, Cursor(e));
      DecodeCursor(e);
      if Cursor(e) in s {
        var i :| 0 <= i < |s| && s[i] == Cursor(e);
        EntriesAt(s, i);
      }
    }
  }

  lemma Lengths(s: seq<Data>)
    requires Readable(s)
    ensures |Entries(s)| == |s|
  {
    if s != [] {
      EntriesAt(s, 0);
    }
  }

  lemma Recovered(table: seq<Data>, program: Data, i: nat)
    requires IsTable(table) && |program| == PROGRAM_ID_SIZE && i < |Select(table, program, None)|
    ensures var x := Select(table, program, None)[i];
            |x| == CURSOR_SIZE && Decode(x).Some? && IsEntry(Decode(x).value) && Cursor(Decode(x).value) == x
  {
    hide Select, LexLess, Decode, Cursor;
    var s := Select(table, program, None);
    SelectShape(table, program, None);
    SelectMembers(table, program, None, s[i]);
    var k :| 0 <= k < |table| && table[k] == program + s[i];
    assert IsKey(table[k]) && table[k][PROGRAM_ID_SIZE..] == s[i];
    var e :| IsEntry(e) && s[i] == Cursor(e);
    DecodeCursor(e);
  }
}
