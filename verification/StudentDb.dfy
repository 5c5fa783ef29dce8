/** The student database: a file of fixed-size records behind a cursor that lseek, read and write move. */
module StudentDb {
  import opened CStrings
  import opened Options

  const FNAME_SIZE: nat := 24
  const LNAME_SIZE: nat := 32
  const STUDENT_RECORD_SIZE: nat := 64
  const MAX_OFFSET: int := 0x7FFF_FFFF
  const MIN_STD_ID: int := 1
  const MAX_STD_ID: int := 100000
  const MIN_STD_GPA: int := 0
  const MAX_STD_GPA: int := 500

  /** n zero bytes. */
  function Zeros(n: nat): (r: string)
    ensures |r| == n && forall k :: 0 <= k < n ==> r[k] == NUL
  {
    seq(n, _ => NUL)
  }

  datatype RawRecord = Record(id: int, fname: string, lname: string, gpa: int)

  /** student_t: the two name fields have fixed sizes. */
  type Record = r: RawRecord | |r.fname| == FNAME_SIZE && |r.lname| == LNAME_SIZE
    witness Record(0, Zeros(FNAME_SIZE), Zeros(LNAME_SIZE), 0)

  /** Every byte is zero. */
  const EMPTY_STUDENT_RECORD: Record := Record(0, Zeros(FNAME_SIZE), Zeros(LNAME_SIZE), 0)

  /** Written out: the id and the gpa are 0, the names are NULs. */
  predicate AllZero(r: Record) {
    && r.id == 0 && r.gpa == 0
    && (forall k :: 0 <= k < 24 ==> r.fname[k] == '\0') && forall k :: 0 <= k < 32 ==> r.lname[k] == '\0'
  }

  type File = seq<Record>

  datatype ReturnCode = NO_ERROR | ERR_DB_FILE | ERR_DB_OP | SRCH_NOT_FOUND

  /** strncpy into a field of n bytes: cut off without a terminator, or padded with NULs. */
  function StrNCpy(src: string, n: nat): (r: string)
    ensures |r| == n && forall k :: 0 <= k < n ==> r[k] == if k < |src| then src[k] else NUL
  {
    if |src| >= n then src[..n] else src + Zeros(n - |src|)
  }

  function NewRecord(id: int, fname: string, lname: string, gpa: int): Record {
    Record(id, StrNCpy(fname, FNAME_SIZE), StrNCpy(lname, LNAME_SIZE), gpa)
  }

  /** id * STUDENT_RECORD_SIZE is computed in a 32-bit int. */
  predicate OffsetFits(id: int) {
    -MAX_OFFSET <= id * STUDENT_RECORD_SIZE <= MAX_OFFSET
  }

  predicate ValidRange(id: int, gpa: int) {
    MIN_STD_ID <= id <= MAX_STD_ID && MIN_STD_GPA <= gpa <= MAX_STD_GPA
  }

  // ---- what the operations do to the file ----

  function Hole(n: nat): (r: File)
    ensures |r| == n && forall k :: 0 <= k < n ==> r[k] == EMPTY_STUDENT_RECORD
  {
    seq(n, _ => EMPTY_STUDENT_RECORD)
  }

  /** write(2) at a slot: past the end it leaves a hole, which reads as empty records. */
  function WriteAt(file: File, slot: nat, r: Record): File {
    if slot < |file| then file[slot := r]
    else file + Hole(slot - |file|) + [r]
  }

  /** The slot holds a record as add_student and del_student see it. */
  predicate Occupied(file: File, id: nat) {
    id < |file| && file[id].id != 0
  }

  /** add_student writes where its read left the cursor: one slot on when there was a slot to read. */
  function AddFile(file: File, id: nat, r: Record): File {
    if Occupied(file, id) then file
    else if id < |file| then WriteAt(file, id + 1, r)
    else WriteAt(file, id, r)
  }

  function DelFile(file: File, id: int): File {
    if id >= 0 && Occupied(file, id) then file[id := EMPTY_STUDENT_RECORD] else file
  }

  /** The records that are not all zero, in file order. */
  function Live(file: File): seq<Record> {
    if file == [] then []
    else (if file[0] != EMPTY_STUDENT_RECORD then [file[0]] else []) + Live(file[1..])
  }

  /** The first non-empty record with this id. */
  function FindFirst(file: File, id: int): Option<Record> {
    if file == [] then None
    else if file[0] != EMPTY_STUDENT_RECORD && file[0].id == id then Some(file[0])
    else FindFirst(file[1..], id)
  }

  /** Record j is the first with this id that is not all zero. */
  predicate IsFirst(file: File, id: int, j: nat) {
    j < |file| && file[j].id == id && !AllZero(file[j]) && forall i :: 0 <= i < j && file[i].id == id ==> AllZero(file[i])
  }

  lemma {:induction false} FindFirstIs(file: File, id: int)
    ensures FindFirst(file, id).None? ==> forall i :: 0 <= i < |file| && file[i].id == id ==> AllZero(file[i])
    ensures FindFirst(file, id).Some? ==> exists j: nat :: IsFirst(file, id, j) && FindFirst(file, id).value == file[j]
  {
    if file != [] {
      AllZeroIsEmpty(file[0]);
      if file[0] != EMPTY_STUDENT_RECORD && file[0].id == id {
        assert IsFirst(file, id, 0);
      } else {
        FindFirstIs(file[1..], id);
        if FindFirst(file[1..], id).Some? {
          var j: nat :| IsFirst(file[1..], id, j) && FindFirst(file[1..], id).value == file[1..][j];
          assert forall i :: 0 < i < j + 1 ==> file[i] == file[1..][i - 1];
          assert IsFirst(file, id, j + 1);
        } else {
          assert forall i :: 0 < i < |file| ==> file[i] == file[1..][i - 1];
        }
      }
    }
  }

  lemma AllZeroIsEmpty(r: Record)
    ensures AllZero(r) <==> r == EMPTY_STUDENT_RECORD
  {
    if AllZero(r) {
      assert r.fname == Zeros(FNAME_SIZE) && r.lname == Zeros(LNAME_SIZE);
    }
  }

  lemma {:induction false} FindFirstAppend(a: File, b: File, id: int)
    ensures FindFirst(a + b, id) == if FindFirst(a, id).Some? then FindFirst(a, id) else FindFirst(b, id)
  {
    if a == [] {
      assert a + b == b;
    } else {
      assert (a + b)[1..] == a[1..] + b;
      FindFirstAppend(a[1..], b, id);
    }
  }

  lemma {:induction false} LiveAppend(a: File, b: File)
    ensures Live(a + b) == Live(a) + Live(b)
  {
    if a == [] {
      assert a + b == b;
    } else {
      assert (a + b)[1..] == a[1..] + b;
      LiveAppend(a[1..], b);
    }
  }

  class Database {
    var file: File
    var cursor: nat  // in records

    constructor ()
      ensures file == [] && cursor == 0
    {
      file, cursor := [], 0;
    }

    /** lseek(2) to a record boundary; a negative offset fails. */
    method Seek(slot: int) returns (ok: bool)
      modifies this`cursor
      ensures ok == (slot >= 0) && cursor == if ok then slot else old(cursor)
    {
      ok := slot >= 0;
      if ok { cursor := slot; }
    }

    /** read(2) of one record: None at end of file. */
    method Read() returns (r: Option<Record>)
      modifies this`cursor
      ensures r == if old(cursor) < |file| then Some(file[old(cursor)]) else None
      ensures cursor == old(cursor) + if r.Some? then 1 else 0
    {
      r := None;
      if cursor < |file| {
        r := Some(file[cursor]);
        cursor := cursor + 1;
      }
    }

    method Write(r: Record)
      modifies this
      ensures file == WriteAt(old(file), old(cursor), r) && cursor == old(cursor) + 1
    {
      file := WriteAt(file, cursor, r);
      cursor := cursor + 1;
    }

    method GetStudent(id: int) returns (rc: ReturnCode, s: Option<Record>)
      modifies this`cursor
      ensures s == FindFirst(file, id)
      ensures s.None? ==> forall i :: 0 <= i < |file| && file[i].id == id ==> AllZero(file[i])
      ensures s.Some? ==> exists j: nat :: IsFirst(file, id, j) && s.value == file[j]
      ensures rc == if s.Some? then NO_ERROR else SRCH_NOT_FOUND
    {
      FindFirstIs(file, id);
      var ok := Seek(0);
      assert file[..0] == [] && file[0..] == file;
      while true
        invariant cursor <= |file| && FindFirst(file[..cursor], id) == None
        decreases |file| - cursor
      {
        ghost var seen := cursor;
        var record := Read();
        if record.None? {
          assert file[..seen] == file;
          return SRCH_NOT_FOUND, None;
        }
        FindFirstAppend(file[..seen], file[seen..], id);
        assert file == file[..seen] + file[seen..];
        if record.value != EMPTY_STUDENT_RECORD {
          if record.value.id == id {
            return NO_ERROR, record;
          }
        }
        FindFirstAppend(file[..seen], [record.value], id);
        assert file[..cursor] == file[..seen] + [record.value];
      }
    }

    method AddStudent(id: int, fname: string, lname: string, gpa: int) returns (rc: ReturnCode)
      requires OffsetFits(id)
      modifies this
      ensures id < 0 ==> rc == ERR_DB_FILE && file == old(file)
      ensures id >= 0 ==> rc == (if Occupied(old(file), id) then ERR_DB_OP else NO_ERROR)
      ensures id >= 0 ==> file == AddFile(old(file), id, NewRecord(id, fname, lname, gpa))
      ensures rc == NO_ERROR ==>
                var slot := if id < |old(file)| then id + 1 else id;
                && |file| == (if slot < |old(file)| then |old(file)| else slot + 1)
                && file[slot].id == id && file[slot].gpa == gpa
                && (forall k :: 0 <= k < 24 ==> file[slot].fname[k] == if k < |fname| then fname[k] else '\0')
                && (forall k :: 0 <= k < 32 ==> file[slot].lname[k] == if k < |lname| then lname[k] else '\0')
                && forall i :: 0 <= i < |file| && i != slot ==>
                     if i < |old(file)| then file[i] == old(file)[i] else AllZero(file[i])
    {
      var ok := Seek(id);
      if !ok {
        return ERR_DB_FILE;
      }
      var slot := Read();
      var student := if slot.Some? then slot.value else EMPTY_STUDENT_RECORD;
      if student.id != 0 {
        return ERR_DB_OP;
      }
      student := Record(id, StrNCpy(fname, FNAME_SIZE), StrNCpy(lname, LNAME_SIZE), gpa);
      Write(student);
      return NO_ERROR;
    }

    method DelStudent(id: int) returns (rc: ReturnCode)
      requires OffsetFits(id)
      modifies this
      ensures rc == if id < 0 then ERR_DB_FILE else if Occupied(old(file), id) then NO_ERROR else ERR_DB_OP
      ensures file == DelFile(old(file), id)
      ensures rc == NO_ERROR ==> |file| == |old(file)| && AllZero(file[id])
      ensures rc == NO_ERROR ==> forall i :: 0 <= i < |file| && i != id ==> file[i] == old(file)[i]
    {
      var ok := Seek(id);
      if !ok {
        return ERR_DB_FILE;
      }
      var slot := Read();
      var student := if slot.Some? then slot.value else EMPTY_STUDENT_RECORD;
      if student.id == 0 {
        return ERR_DB_OP;
      }
      ok := Seek(id);
      if !ok {
        return ERR_DB_FILE;
      }
      Write(EMPTY_STUDENT_RECORD);
      return NO_ERROR;
    }

    method CountDbRecords() returns (count: nat)
      modifies this`cursor
      ensures count == |Live(file)|
    {
      count := 0;
      var ok := Seek(0);
      assert file[..0] == [];
      while true
        invariant cursor <= |file| && count == |Live(file[..cursor])|
        decreases |file| - cursor
      {
        ghost var seen := cursor;
        var record := Read();
        if record.None? {
          assert file[..seen] == file;
          return;
        }
        LiveAppend(file[..seen], [record.value]);
        assert file[..cursor] == file[..seen] + [record.value];
        if record.value != EMPTY_STUDENT_RECORD {
          count := count + 1;
        }
      }
    }

    /** rows: the records printed, in order. */
    method PrintDb() returns (rows: seq<Record>)
      modifies this`cursor
      ensures rows == Live(file)
    {
      rows := [];
      var ok := Seek(0);
      assert file[..0] == [];
      while true
        invariant cursor <= |file| && rows == Live(file[..cursor])
        decreases |file| - cursor
      {
        ghost var seen := cursor;
        var record := Read();
        if record.None? {
          assert file[..seen] == file;
          return;
        }
        LiveAppend(file[..seen], [record.value]);
        assert file[..cursor] == file[..seen] + [record.value];
        if record.value != EMPTY_STUDENT_RECORD {
          rows := rows + [record.value];
        }
      }
    }

    /** Copies the live records to a temporary file, which then replaces the database. */
    method CompressDb()
      modifies this
      ensures file == Live(old(file)) && cursor == 0
    {
      var temp := new Database();
      var ok := Seek(0);
      var record := Read();
      ghost var seen := 0;
      assert file[..0] == [];
      while record.Some?
        invariant fresh(temp) && file == old(file)
        invariant seen <= |file| && record == (if seen < |file| then Some(file[seen]) else None)
        invariant cursor == seen + if record.Some? then 1 else 0
        invariant temp.file == Live(file[..seen]) && temp.cursor == |temp.file|
        decreases |file| - seen
      {
        LiveAppend(file[..seen], [record.value]);
        assert file[..seen + 1] == file[..seen] + [record.value];
        if record.value != EMPTY_STUDENT_RECORD {
          temp.Write(record.value);
        }
        record := Read();
        seen := seen + 1;
      }
      assert file[..seen] == file;
      file := temp.file;
      cursor := 0;
    }
  }

  // ---- compression keeps every scan's answer ----

  lemma {:induction false} CompressKeepsFind(file: File, id: int)
    ensures FindFirst(Live(file), id) == FindFirst(file, id)
  {
    if file != [] {
      var first := if file[0] != EMPTY_STUDENT_RECORD then [file[0]] else [];
      CompressKeepsFind(file[1..], id);
      FindFirstAppend(first, Live(file[1..]), id);
      if first != [] {
        assert first[1..] == [];
      }
    }
  }

  lemma {:induction false} LiveHasNoEmpty(file: File)
    ensures EMPTY_STUDENT_RECORD !in Live(file)
  {
    if file != [] {
      LiveHasNoEmpty(file[1..]);
    }
  }

  lemma {:induction false} NothingToDrop(file: File)
    requires EMPTY_STUDENT_RECORD !in file
    ensures Live(file) == file
  {
    if file != [] {
      NothingToDrop(file[1..]);
    }
  }

  /** Finding, counting and printing give the same before and after; a second compression changes nothing. */
  lemma CompressPreservesMeaning(file: File)
    ensures forall id :: FindFirst(Live(file), id) == FindFirst(file, id)
    ensures |Live(Live(file))| == |Live(file)| && Live(Live(file)) == Live(file)
    ensures EMPTY_STUDENT_RECORD !in Live(file)
  {
    forall id ensures FindFirst(Live(file), id) == FindFirst(file, id) {
      CompressKeepsFind(file, id);
    }
    LiveHasNoEmpty(file);
    NothingToDrop(Live(file));
  }

  // ---- the file as a finite map ----

  /** Slot i is empty or holds the record with id i. */
  predicate Slotted(file: File) {
    forall i :: 0 <= i < |file| ==> file[i] == EMPTY_STUDENT_RECORD || (file[i].id == i && i >= 1)
  }

  function AsMap(file: File): map<int, Record> {
    map i | 0 <= i < |file| && file[i] != EMPTY_STUDENT_RECORD :: file[i]
  }

  /** The scan agrees with looking into the slot. */
  lemma {:induction false} ScanIsSlotLookup(file: File, id: int, from: nat)
    requires Slotted(file) && from <= |file|
    ensures FindFirst(file[from..], id)
         == if from <= id < |file| && file[id] != EMPTY_STUDENT_RECORD then Some(file[id]) else None
    decreases |file| - from
  {
    if from < |file| {
      assert file[from..][1..] == file[from + 1..];
      ScanIsSlotLookup(file, id, from + 1);
    }
  }

  lemma FindIsLookup(file: File, id: int)
    requires Slotted(file)
    ensures FindFirst(file, id) == if id in AsMap(file) then Some(AsMap(file)[id]) else None
  {
    assert file[0..] == file;
    ScanIsSlotLookup(file, id, 0);
  }

  lemma AsMapNext(init: File, r: Record)
    ensures AsMap(init + [r]) == if r == EMPTY_STUDENT_RECORD then AsMap(init) else AsMap(init)[|init| := r]
  {
    var file := init + [r];
    assert forall i :: 0 <= i < |init| ==> file[i] == init[i];
  }

  lemma {:induction false} CountIsMapSize(file: File)
    ensures |Live(file)| == |AsMap(file)|
  {
    if file != [] {
      var k := |file| - 1;
      var init, last := file[..k], file[k];
      CountIsMapSize(init);
      LiveAppend(init, [last]);
      AsMapNext(init, last);
      assert file == init + [last];
    }
  }

  datatype Op =
    | Find(id: int)
    | Count
    | Del(id: int)
    | Add(id: int, fname: string, lname: string, gpa: int)

  function Apply(file: File, op: Op): File {
    match op
    case Find(_) => file
    case Count => file
    case Del(id) => DelFile(file, id)
    case Add(id, fname, lname, gpa) => if id < 0 then file else AddFile(file, id, NewRecord(id, fname, lname, gpa))
  }

  /** The map a caller has in mind. */
  function ApplyToMap(m: map<int, Record>, op: Op): map<int, Record> {
    match op
    case Find(_) => m
    case Count => m
    case Del(id) => m - {id}
    case Add(id, fname, lname, gpa) => if id in m then m else m[id := NewRecord(id, fname, lname, gpa)]
  }

  /** The largest id whose record was ever added, or -1. */
  function Highest(m: map<int, Record>, highest: int, op: Op): int {
    if op.Add? && op.id !in m && op.id > highest then op.id else highest
  }

  /** The slot of an add is at or past the end of the file, or taken. */
  predicate AddHitsItsSlot(file: File, id: int) {
    id >= |file| || (id >= 0 && file[id].id != 0)
  }

  predicate Allowed(file: File, op: Op) {
    op.Add? ==> ValidRange(op.id, op.gpa) && AddHitsItsSlot(file, op.id)
  }

  ghost predicate RunOk(file: File, ops: seq<Op>)
    decreases |ops|
  {
    ops == [] || (Allowed(file, ops[0]) && RunOk(Apply(file, ops[0]), ops[1..]))
  }

  function Run(file: File, ops: seq<Op>): File
    decreases |ops|
  {
    if ops == [] then file else Run(Apply(file, ops[0]), ops[1..])
  }

  function RunMap(m: map<int, Record>, ops: seq<Op>): map<int, Record>
    decreases |ops|
  {
    if ops == [] then m else RunMap(ApplyToMap(m, ops[0]), ops[1..])
  }

  function RunHighest(m: map<int, Record>, highest: int, ops: seq<Op>): int
    decreases |ops|
  {
    if ops == [] then highest
    else RunHighest(ApplyToMap(m, ops[0]), Highest(m, highest, ops[0]), ops[1..])
  }

  lemma AddRefines(file: File, op: Op)
    requires Slotted(file) && op.Add? && Allowed(file, op)
    ensures Slotted(Apply(file, op)) && AsMap(Apply(file, op)) == ApplyToMap(AsMap(file), op)
    ensures |Apply(file, op)| == if op.id in AsMap(file) then |file| else op.id + 1
  {
    var r := NewRecord(op.id, op.fname, op.lname, op.gpa);
    var after := Apply(file, op);
    if !Occupied(file, op.id) {
      assert after == file + Hole(op.id - |file|) + [r];
      assert forall i :: 0 <= i < |file| ==> after[i] == file[i];
    }
  }

  lemma StepRefines(file: File, op: Op)
    requires Slotted(file) && Allowed(file, op)
    ensures Slotted(Apply(file, op)) && AsMap(Apply(file, op)) == ApplyToMap(AsMap(file), op)
    ensures |Apply(file, op)| - 1 == Highest(AsMap(file), |file| - 1, op)
  {
    if op.Add? {
      AddRefines(file, op);
    }
  }

  lemma {:induction false} RunRefines(file: File, ops: seq<Op>)
    requires Slotted(file) && RunOk(file, ops)
    ensures Slotted(Run(file, ops)) && AsMap(Run(file, ops)) == RunMap(AsMap(file), ops)
    ensures |Run(file, ops)| == RunHighest(AsMap(file), |file| - 1, ops) + 1
    decreases |ops|
  {
    if ops != [] {
      StepRefines(file, ops[0]);
      RunRefines(Apply(file, ops[0]), ops[1..]);
    }
  }

  /** With one slot per id, counting, slot access and scanning all answer like the map. */
  lemma {:induction false} ScansAnswerLikeMap(file: File)
    requires Slotted(file)
    ensures |Live(file)| == |AsMap(file)|
    ensures forall id: nat :: Occupied(file, id) <==> id in AsMap(file)
    ensures forall id :: FindFirst(file, id) == if id in AsMap(file) then Some(AsMap(file)[id]) else None
  {
    CountIsMapSize(file);
    forall id ensures FindFirst(file, id) == if id in AsMap(file) then Some(AsMap(file)[id]) else None {
      FindIsLookup(file, id);
    }
  }

  /** From the empty file, any allowed run leaves one slot per id, the file as long as the largest id added
      asks for, and scans and counts that answer like the map. */
  lemma {:induction false} DatabaseRefinesMap(ops: seq<Op>)
    requires RunOk([], ops)
    ensures var file, m := Run([], ops), RunMap(map[], ops);
            && Slotted(file) && AsMap(file) == m
            && |file| == RunHighest(map[], -1, ops) + 1
            && |Live(file)| == |m|
            && (forall id: nat :: Occupied(file, id) <==> id in m)
            && forall id :: FindFirst(file, id) == if id in m then Some(m[id]) else None
  {
    var file := Run([], ops);
    assert AsMap([]) == map[];
    RunRefines([], ops);
    assert AsMap(file) == RunMap(map[], ops) && |file| == RunHighest(map[], -1, ops) + 1;
    ScansAnswerLikeMap(file);
  }

  // ---- the program's answers are the map's ----

  /** What an operation tells its caller: the record, the number, or whether it took effect. */
  datatype Answer = Found(s: Option<Record>) | Counted(n: nat) | Done(ok: bool)

  function AnswerOf(m: map<int, Record>, op: Op): Answer {
    match op
    case Find(id) => Found(if id in m then Some(m[id]) else None)
    case Count => Counted(|m|)
    case Del(id) => Done(id in m)
    case Add(id, _, _, _) => Done(id !in m)
  }

  function Answers(m: map<int, Record>, ops: seq<Op>): seq<Answer>
    decreases |ops|
  {
    if ops == [] then [] else [AnswerOf(m, ops[0])] + Answers(ApplyToMap(m, ops[0]), ops[1..])
  }

  /** The answer that the program gives. */
  function ProgramAnswer(file: File, op: Op): Answer {
    match op
    case Find(id) => Found(FindFirst(file, id))
    case Count => Counted(|Live(file)|)
    case Del(id) => Done(id >= 0 && Occupied(file, id))
    case Add(id, _, _, _) => Done(id >= 0 && !Occupied(file, id))
  }

  /** One operation, on whatever file there is. */
  method Perform(db: Database, op: Op) returns (answer: Answer)
    requires op.Del? || op.Add? ==> OffsetFits(op.id)
    modifies db
    ensures answer == ProgramAnswer(old(db.file), op) && db.file == Apply(old(db.file), op)
  {
    match op {
      case Find(id) =>
        var rc, s := db.GetStudent(id);
        answer := Found(s);
      case Count =>
        var n := db.CountDbRecords();
        answer := Counted(n);
      case Del(id) =>
        var rc := db.DelStudent(id);
        answer := Done(rc == NO_ERROR);
      case Add(id, fname, lname, gpa) =>
        var rc := db.AddStudent(id, fname, lname, gpa);
        answer := Done(rc == NO_ERROR);
    }
  }

  /** On a file that is in step with its map, the program's answer is the map's. */
  lemma AnswersLikeMap(file: File, op: Op)
    requires Slotted(file) && Allowed(file, op)
    ensures ProgramAnswer(file, op) == AnswerOf(AsMap(file), op)
  {
    if op.Find? {
      FindIsLookup(file, op.id);
    }
    CountIsMapSize(file);
  }

  lemma FirstAllowed(file: File, ops: seq<Op>, k: nat)
    requires k < |ops| && RunOk(file, ops[k..])
    ensures Allowed(file, ops[k]) && RunOk(Apply(file, ops[k]), ops[k + 1..])
  {
    assert ops[k..][0] == ops[k] && ops[k..][1..] == ops[k + 1..];
  }

  /** The answers to come, before and after operation k. */
  lemma NextAnswer(file: File, ops: seq<Op>, k: nat, next: File, answer: Answer)
    requires k < |ops| && Slotted(file) && Allowed(file, ops[k])
    requires next == Apply(file, ops[k]) && answer == ProgramAnswer(file, ops[k])
    ensures Slotted(next)
    ensures Answers(AsMap(file), ops[k..]) == [answer] + Answers(AsMap(next), ops[k + 1..])
  {
    assert ops[k..][0] == ops[k] && ops[k..][1..] == ops[k + 1..];
    AnswersLikeMap(file, ops[k]);
    StepRefines(file, ops[k]);
  }

  /** Over any allowed run from the empty file, every answer the program gives is the map's answer. */
  method Replay(ops: seq<Op>) returns (answers: seq<Answer>)
    requires RunOk([], ops) && forall k :: 0 <= k < |ops| && ops[k].Del? ==> OffsetFits(ops[k].id)
    ensures answers == Answers(map[], ops)
  {
    var db := new Database();
    answers := [];
    var k := 0;
    assert AsMap([]) == map[] && ops[0..] == ops;
    ghost var todo := Answers(map[], ops);
    while k < |ops|
      invariant 0 <= k <= |ops| && fresh(db) && Slotted(db.file) && RunOk(db.file, ops[k..])
      invariant todo == Answers(AsMap(db.file), ops[k..]) && answers + todo == Answers(map[], ops)
    {
      ghost var before := db.file;
      FirstAllowed(before, ops, k);
      var answer := Perform(db, ops[k]);
      NextAnswer(before, ops, k, db.file, answer);
      answers, todo := answers + [answer], todo[1..];
      k := k + 1;
    }
    assert ops[k..] == [] && answers + [] == answers;
  }

  // ---- exactly when an add keeps records in their slots ----

  /** Into an empty slot inside the file, add_student writes one slot too far; everywhere else it is right. */
  lemma AddKeepsSlotsIff(file: File, id: int, fname: string, lname: string, gpa: int)
    requires Slotted(file) && ValidRange(id, gpa)
    ensures Slotted(AddFile(file, id, NewRecord(id, fname, lname, gpa))) <==> AddHitsItsSlot(file, id)
  {
    var op := Add(id, fname, lname, gpa);
    if AddHitsItsSlot(file, id) {
      AddRefines(file, op);
    } else {
      assert Apply(file, op)[id + 1].id == id;
    }
  }

  predicate Matches(r: Record, id: int) {
    r != EMPTY_STUDENT_RECORD && r.id == id
  }

  /** The scan finds slot j if it is the first match, and nothing if there is none. */
  lemma {:induction false} FirstMatch(file: File, id: int, from: nat, j: nat)
    requires from <= j <= |file| && (forall k :: from <= k < j ==> !Matches(file[k], id))
    requires j < |file| ==> Matches(file[j], id)
    ensures FindFirst(file[from..], id) == if j < |file| then Some(file[j]) else None
    decreases j - from
  {
    if from < j {
      assert file[from..][1..] == file[from + 1..];
      FirstMatch(file, id, from + 1, j);
    }
  }

  // ---- all runs: records one slot too far ----

  /** A record lies in its own slot or in the next one, and no student in both. */
  predicate Once(file: File) {
    && (forall i :: 0 <= i < |file| ==>
          file[i] == EMPTY_STUDENT_RECORD || (file[i].id >= 1 && (file[i].id == i || file[i].id == i - 1)))
    && forall i :: 0 <= i < |file| - 1 && file[i] != EMPTY_STUDENT_RECORD ==> file[i + 1].id != file[i].id
  }

  /** The student's record lies in its own slot. */
  predicate InOwnSlot(file: File, id: int) {
    0 <= id < |file| && Matches(file[id], id)
  }

  /** The student's record lies one slot too far. */
  predicate Displaced(file: File, id: int) {
    0 <= id + 1 < |file| && Matches(file[id + 1], id)
  }

  /** The student's slot is taken by the record of the student before. */
  predicate SlotStolen(file: File, id: int) {
    0 <= id < |file| && Matches(file[id], id - 1)
  }

  /** Where the scan finds a student. */
  lemma FindOnce(file: File, id: int)
    requires Once(file)
    ensures FindFirst(file, id) == if InOwnSlot(file, id) then Some(file[id])
                                   else if Displaced(file, id) then Some(file[id + 1]) else None
  {
    var j := if InOwnSlot(file, id) then id else if Displaced(file, id) then id + 1 else |file|;
    FirstMatch(file, id, 0, j);
    assert file[0..] == file;
  }

  predicate IdsInRange(ops: seq<Op>) {
    forall k :: 0 <= k < |ops| && ops[k].Add? ==> ValidRange(ops[k].id, ops[k].gpa)
  }

  lemma StepStaysOnce(file: File, op: Op)
    requires Once(file) && (op.Add? ==> ValidRange(op.id, op.gpa))
    ensures Once(Apply(file, op))
  {
    if op.Add? && !Occupied(file, op.id) {
      var r := NewRecord(op.id, op.fname, op.lname, op.gpa);
      var slot := if op.id < |file| then op.id + 1 else op.id;
      var after := WriteAt(file, slot, r);
      assert forall i :: 0 <= i < |after| && i != slot ==> after[i] == if i < |file| then file[i] else EMPTY_STUDENT_RECORD;
      assert after[slot] == r;
    }
  }

  /** Whatever is added, deleted and looked up, no record strays further, and no student is in the file twice. */
  lemma {:induction false} RunStaysOnce(file: File, ops: seq<Op>)
    requires Once(file) && IdsInRange(ops)
    ensures Once(Run(file, ops))
    decreases |ops|
  {
    if ops != [] {
      StepStaysOnce(file, ops[0]);
      RunStaysOnce(Apply(file, ops[0]), ops[1..]);
    }
  }

  /** What an add that is not refused does to the slots. */
  lemma AddedSlots(file: File, id: int, r: Record, x: int)
    requires Once(file) && 1 <= id && r.id == id && !Occupied(file, id) && x != id
    ensures InOwnSlot(AddFile(file, id, r), x) <==> InOwnSlot(file, x) && !(x == id + 1 && id < |file|)
    ensures Displaced(AddFile(file, id, r), x) <==> Displaced(file, x)
    ensures InOwnSlot(AddFile(file, id, r), x) ==> AddFile(file, id, r)[x] == file[x]
    ensures Displaced(file, x) ==> AddFile(file, id, r)[x + 1] == file[x + 1]
  {
    var after, slot := AddFile(file, id, r), if id < |file| then id + 1 else id;
    assert forall i :: 0 <= i < |after| && i != slot ==> after[i] == if i < |file| then file[i] else EMPTY_STUDENT_RECORD;
    assert after[slot] == r;
  }

  /** An add changes what the scan finds for another student only if it overwrites that student's record. */
  lemma AddElsewhere(file: File, id: int, fname: string, lname: string, gpa: int, x: int)
    requires Once(file) && ValidRange(id, gpa) && x != id
    ensures FindFirst(AddFile(file, id, NewRecord(id, fname, lname, gpa)), x)
         == if x == id + 1 && !AddHitsItsSlot(file, id) && InOwnSlot(file, x) then None else FindFirst(file, x)
  {
    var op := Add(id, fname, lname, gpa);
    StepStaysOnce(file, op);
    FindOnce(file, x);
    FindOnce(Apply(file, op), x);
    if !Occupied(file, id) {
      AddedSlots(file, id, NewRecord(id, fname, lname, gpa), x);
    }
  }

  /** A student added to a file that a run has left behind, and then looked up: the names are cut off or padded with
      NULs, and everything is where it belongs. */
  method AddThenGet(db: Database, id: int, fname: string, lname: string, gpa: int)
      returns (rc: ReturnCode, found: Option<Record>)
    requires Once(db.file) && 1 <= id <= 100000 && 0 <= gpa <= 500
    modifies db
    ensures rc == NO_ERROR ==>
              && found.Some? && found.value.id == id && found.value.gpa == gpa
              && |found.value.fname| == 24 && |found.value.lname| == 32
              && (forall k :: 0 <= k < 24 ==> found.value.fname[k] == if k < |fname| then fname[k] else '\0')
              && (forall k :: 0 <= k < 32 ==> found.value.lname[k] == if k < |lname| then lname[k] else '\0')
    ensures rc == NO_ERROR <==> id >= |old(db.file)| || old(db.file)[id].id == 0
    ensures rc != NO_ERROR ==> rc == ERR_DB_OP && db.file == old(db.file)
  {
    AddItself(db.file, id, fname, lname, gpa);
    rc := db.AddStudent(id, fname, lname, gpa);
    var _, s := db.GetStudent(id);
    found := s;
  }

  /** After an add the scan finds the student, unless another student's record is in the slot. */
  lemma AddItself(file: File, id: int, fname: string, lname: string, gpa: int)
    requires Once(file) && ValidRange(id, gpa)
    ensures var r := NewRecord(id, fname, lname, gpa);
            FindFirst(AddFile(file, id, r), id) == if Occupied(file, id) then FindFirst(file, id) else Some(r)
  {
    var op := Add(id, fname, lname, gpa);
    StepStaysOnce(file, op);
    FindOnce(file, id);
    FindOnce(Apply(file, op), id);
  }

  lemma DelFinds(file: File, id: int, x: int)
    requires Once(file)
    ensures Once(DelFile(file, id))
    ensures FindFirst(DelFile(file, id), x)
         == if (x == id && InOwnSlot(file, id)) || (x == id - 1 && SlotStolen(file, id)) then None else FindFirst(file, x)
  {
    StepStaysOnce(file, Del(id));
    FindOnce(file, x);
    FindOnce(DelFile(file, id), x);
  }

  /** In any file that any run can leave behind, an add loses no other student if and only if it hits its own slot,
      or the slot behind is empty, or what lies there is the student's own record. */
  lemma AddLosesNobodyIff(file: File, id: int, fname: string, lname: string, gpa: int)
    requires Once(file) && ValidRange(id, gpa)
    ensures (forall x :: x != id ==> FindFirst(AddFile(file, id, NewRecord(id, fname, lname, gpa)), x) == FindFirst(file, x))
            <==> AddHitsItsSlot(file, id) || !Occupied(file, id + 1) || file[id + 1].id == id
    ensures !AddHitsItsSlot(file, id) && Occupied(file, id + 1) && file[id + 1].id != id ==>
              FindFirst(file, id + 1).Some? && FindFirst(AddFile(file, id, NewRecord(id, fname, lname, gpa)), id + 1).None?
  {
    FindOnce(file, id + 1);
    forall x | x != id
      ensures FindFirst(AddFile(file, id, NewRecord(id, fname, lname, gpa)), x)
           == if x == id + 1 && !AddHitsItsSlot(file, id) && InOwnSlot(file, x) then None else FindFirst(file, x)
    {
      AddElsewhere(file, id, fname, lname, gpa, x);
    }
  }

  /** A delete loses no other student if and only if the slot does not hold the student before. */
  lemma DelLosesNobodyIff(file: File, id: int)
    requires Once(file)
    ensures (forall x :: x != id ==> FindFirst(DelFile(file, id), x) == FindFirst(file, x)) <==> !SlotStolen(file, id)
    ensures SlotStolen(file, id) ==> FindFirst(file, id - 1).Some? && FindFirst(DelFile(file, id), id - 1).None?
  {
    FindOnce(file, id - 1);
    forall x | x != id
      ensures FindFirst(DelFile(file, id), x) == if x == id - 1 && SlotStolen(file, id) then None else FindFirst(file, x)
    {
      DelFinds(file, id, x);
    }
  }

  /** The ids of the records in the file. */
  function Students(file: File): set<int> {
    set k | 0 <= k < |file| && file[k] != EMPTY_STUDENT_RECORD :: file[k].id
  }

  lemma StudentsNext(init: File, r: Record)
    ensures Students(init + [r]) == Students(init) + if r == EMPTY_STUDENT_RECORD then {} else {r.id}
  {
    var file := init + [r];
    forall k | 0 <= k < |init| && init[k] != EMPTY_STUDENT_RECORD ensures init[k].id in Students(file) {
      assert file[k] == init[k];
    }
    if r != EMPTY_STUDENT_RECORD {
      assert file[|init|] == r;
    }
  }

  lemma LastIsNew(init: File, last: Record)
    requires Once(init + [last]) && last != EMPTY_STUDENT_RECORD
    ensures Once(init) && last.id !in Students(init)
  {
    OncePrefix(init, last);
    var file := init + [last];
    forall j | 0 <= j < |init| && init[j] != EMPTY_STUDENT_RECORD ensures init[j].id != last.id {
      assert file[j] == init[j] && file[|init|] == last;
    }
  }

  lemma OncePrefix(init: File, last: Record)
    requires Once(init + [last])
    ensures Once(init)
  {
    var file := init + [last];
    assert forall i :: 0 <= i < |init| ==> init[i] == file[i];
  }

  /** The count is the number of students, even when some are displaced. */
  lemma {:induction false} CountOnce(file: File)
    requires Once(file)
    ensures |Live(file)| == |Students(file)|
  {
    if file != [] {
      var k := |file| - 1;
      var init, last := file[..k], file[k];
      assert file == init + [last];
      OncePrefix(init, last);
      CountOnce(init);
      LiveAppend(init, [last]);
      StudentsNext(init, last);
      if last != EMPTY_STUDENT_RECORD {
        LastIsNew(init, last);
      }
    }
  }

  // ---- exactly when an operation does what a caller with a map in mind expects ----

  /** The answer that the caller expects, taking the students that the scan finds for those in the database. */
  function ExpectedAnswer(file: File, op: Op): Answer {
    match op
    case Find(id) => Found(FindFirst(file, id))
    case Count => Counted(|Students(file)|)
    case Del(id) => Done(FindFirst(file, id).Some?)
    case Add(id, _, _, _) => Done(FindFirst(file, id).None?)
  }

  /** What the caller expects the scan for student x to find afterwards. */
  function ExpectedFind(file: File, op: Op, x: int): Option<Record> {
    if op.Del? && op.id == x then None
    else if op.Add? && op.id == x && FindFirst(file, x).None? then Some(NewRecord(x, op.fname, op.lname, op.gpa))
    else FindFirst(file, x)
  }

  ghost predicate DoesAsExpected(file: File, op: Op) {
    && ProgramAnswer(file, op) == ExpectedAnswer(file, op)
    && forall x :: FindFirst(Apply(file, op), x) == ExpectedFind(file, op, x)
  }

  /** A look at two slots tells. */
  predicate GoesWell(file: File, op: Op) {
    match op
    case Find(_) => true
    case Count => true
    case Del(id) => InOwnSlot(file, id) || (!SlotStolen(file, id) && !Displaced(file, id))
    case Add(id, _, _, _) =>
      id >= 0 && if Occupied(file, id) then InOwnSlot(file, id) || Displaced(file, id)
                 else id >= |file| || !Occupied(file, id + 1)
  }

  lemma DelAsExpectedIff(file: File, id: int)
    requires Once(file)
    ensures DoesAsExpected(file, Del(id)) <==> GoesWell(file, Del(id))
  {
    FindOnce(file, id);
    FindOnce(file, id - 1);
    DelFinds(file, id, id - 1);
    DelFinds(file, id, id);
    if DoesAsExpected(file, Del(id)) {
      assert FindFirst(Apply(file, Del(id)), id - 1) == ExpectedFind(file, Del(id), id - 1);
    }
    if GoesWell(file, Del(id)) {
      forall x ensures FindFirst(Apply(file, Del(id)), x) == ExpectedFind(file, Del(id), x) {
        DelFinds(file, id, x);
      }
    }
  }

  lemma AddAsExpectedIff(file: File, op: Op)
    requires Once(file) && op.Add? && ValidRange(op.id, op.gpa)
    ensures DoesAsExpected(file, op) <==> GoesWell(file, op)
  {
    var id := op.id;
    FindOnce(file, id);
    FindOnce(file, id + 1);
    AddItself(file, id, op.fname, op.lname, op.gpa);
    AddElsewhere(file, id, op.fname, op.lname, op.gpa, id + 1);
    if DoesAsExpected(file, op) {
      assert FindFirst(Apply(file, op), id + 1) == ExpectedFind(file, op, id + 1);
    }
    if GoesWell(file, op) {
      forall x ensures FindFirst(Apply(file, op), x) == ExpectedFind(file, op, x) {
        if x != id {
          AddElsewhere(file, id, op.fname, op.lname, op.gpa, x);
        }
      }
    }
  }

  /** After any run at all, the next operation answers and acts as on the set of students that the scan finds if and
      only if GoesWell. */
  lemma {:induction false} AsExpectedIff(ops: seq<Op>, op: Op)
    requires IdsInRange(ops) && (op.Add? ==> ValidRange(op.id, op.gpa))
    ensures DoesAsExpected(Run([], ops), op) <==> GoesWell(Run([], ops), op)
  {
    RunStaysOnce([], ops);
    CountOnce(Run([], ops));
    if op.Del? {
      DelAsExpectedIff(Run([], ops), op.id);
    } else if op.Add? {
      AddAsExpectedIff(Run([], ops), op);
    }
  }

  // ---- runs that go wrong ----

  lemma RunTwo(file: File, a: Op, b: Op)
    ensures Run(file, [a, b]) == Apply(Apply(file, a), b)
  {
    assert [a, b][1..] == [b] && [b][1..] == [];
    assert Run(Apply(Apply(file, a), b), []) == Apply(Apply(file, a), b);
    assert Run(Apply(file, a), [b]) == Apply(Apply(file, a), b);
  }

  lemma RunThree(file: File, a: Op, b: Op, c: Op)
    ensures Run(file, [a, b, c]) == Apply(Apply(Apply(file, a), b), c)
  {
    assert [a, b, c][1..] == [b, c];
    RunTwo(Apply(file, a), b, c);
  }

  /** Add 1, delete 1, add 1 again: the scan finds student 1, but deleting it says there is no such student. */
  lemma ReAddIsMisplaced(fname: string, lname: string)
    ensures var file := Run([], [Add(1, fname, lname, 400), Del(1), Add(1, fname, lname, 400)]);
            && FindFirst(file, 1).Some? && !Occupied(file, 1) && DelFile(file, 1) == file
  {
    var r := NewRecord(1, fname, lname, 400);
    var add, empty := Add(1, fname, lname, 400), EMPTY_STUDENT_RECORD;
    RunThree([], add, Del(1), add);
    assert Apply([], add) == [empty, r];
    assert Apply([empty, r], Del(1)) == [empty, empty];
    var file := [empty, empty, r];
    assert Apply([empty, empty], add) == file;
    FindOnce(file, 1);
  }

  /** Add 2, then add 1: both are reported as added, and student 2 is gone. */
  lemma AddDestroysNeighbour(fname: string, lname: string)
    ensures var add2, add1 := Add(2, fname, lname, 400), Add(1, fname, lname, 400);
            && ProgramAnswer([], add2) == Done(true) && ProgramAnswer(Run([], [add2]), add1) == Done(true)
            && FindFirst(Run([], [add2]), 2).Some? && FindFirst(Run([], [add2, add1]), 2).None?
  {
    var add2, add1, empty := Add(2, fname, lname, 400), Add(1, fname, lname, 400), EMPTY_STUDENT_RECORD;
    var r2, r1 := NewRecord(2, fname, lname, 400), NewRecord(1, fname, lname, 400);
    RunTwo([], add2, add1);
    assert [add2][1..] == [] && Run(Apply([], add2), []) == Apply([], add2);
    assert Apply([], add2) == [empty, empty, r2];
    assert Apply([empty, empty, r2], add1) == [empty, empty, r1];
    FindOnce([empty, empty, r2], 2);
    FindOnce([empty, empty, r1], 2);
  }

  /** Add 3, add 1, delete 2, which was never added: the delete is reported as done, and student 1 is gone. */
  lemma DelRemovesNeighbour(fname: string, lname: string)
    ensures var add3, add1 := Add(3, fname, lname, 400), Add(1, fname, lname, 400);
            var before := Run([], [add3, add1]);
            && FindFirst(before, 2).None? && ProgramAnswer(before, Del(2)) == Done(true)
            && FindFirst(before, 1).Some? && FindFirst(Run([], [add3, add1, Del(2)]), 1).None?
  {
    var add3, add1, empty := Add(3, fname, lname, 400), Add(1, fname, lname, 400), EMPTY_STUDENT_RECORD;
    var r3, r1 := NewRecord(3, fname, lname, 400), NewRecord(1, fname, lname, 400);
    RunTwo([], add3, add1);
    RunThree([], add3, add1, Del(2));
    assert Apply([], add3) == [empty, empty, empty, r3];
    var before := [empty, empty, r1, r3];
    assert Apply([empty, empty, empty, r3], add1) == before;
    assert Apply(before, Del(2)) == [empty, empty, empty, r3];
    FindOnce(before, 1);
    FindOnce(before, 2);
    FindOnce([empty, empty, empty, r3], 1);
  }
}
