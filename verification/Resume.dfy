/** Scan progression records: the per-template resume information, how it is cloned, written to
    and read from a resume file, and how a loaded record is compiled into a skip window. */
module Resume {

  const MAX_UINT32 := 0xFFFF_FFFF

  type uint32 = x: int | 0 <= x <= MAX_UINT32

  /** What a resume file keeps of a record: the other fields are not serialized. */
  datatype Snapshot = Snapshot(completed: bool, inFlight: set<uint32>)

  /** The value of a ResumeInfo object. */
  datatype Info = Info(completed: bool, inFlight: set<uint32>, skipUnder: uint32, repeat: set<uint32>, doAbove: uint32)
  {
    function Saved(): Snapshot { Snapshot(completed, inFlight) }
  }

  /** The record a template gets when no earlier run left one. */
  const FRESH := Info(false, {}, 0, {}, 0)

  ghost predicate IsLeast(m: uint32, s: set<uint32>) {
    m in s && forall j | j in s :: m <= j
  }

  ghost predicate IsGreatest(m: uint32, s: set<uint32>) {
    m in s && forall j | j in s :: j <= m
  }

  lemma {:induction false} BoundsExist(s: set<uint32>)
    requires s != {}
    ensures exists m :: IsLeast(m, s)
    ensures exists m :: IsGreatest(m, s)
  {
    var x :| x in s;
    var rest := s - {x};
    assert forall j | j in s :: j == x || j in rest;
    if rest == {} {
      assert IsLeast(x, s) && IsGreatest(x, s);
    } else {
      BoundsExist(rest);
      var m :| IsLeast(m, rest);
      var n :| IsGreatest(n, rest);
      assert IsLeast(if x < m then x else m, s);
      assert IsGreatest(if x > n then x else n, s);
    }
  }

  /** The least index of s, and the largest 32-bit value when there is none. */
  ghost function LeastOr(s: set<uint32>): (m: uint32)
    ensures s == {} ==> m == MAX_UINT32
    ensures s != {} ==> m in s
    ensures forall j | j in s :: m <= j
  {
    if s == {} then MAX_UINT32
    else
      BoundsExist(s);
      var m: uint32 :| IsLeast(m, s); m
  }

  /** The greatest index of s, and 0 when there is none. */
  ghost function GreatestOr(s: set<uint32>): (m: uint32)
    ensures s == {} ==> m == 0
    ensures s != {} ==> m in s
    ensures forall j | j in s :: j <= m
  {
    if s == {} then 0
    else
      BoundsExist(s);
      var m: uint32 :| IsGreatest(m, s); m
  }

  /** The window that the in-flight indexes of a snapshot stand for. */
  ghost function Compiled(s: Snapshot): Info {
    var inFlight := if s.completed then {} else s.inFlight;
    Info(s.completed, inFlight, LeastOr(inFlight), inFlight, GreatestOr(inFlight))
  }

  /** The four-way decision taken for each target: completed, below the window, repeated, above the window. */
  function Skips(info: Info, index: uint32): bool {
    if info.completed then true
    else if index < info.skipUnder then true
    else if index in info.inFlight then false
    else if index > info.doAbove then false
    else false
  }

  /** A compiled record runs exactly the indexes that are not below every index that was in flight. */
  lemma CompiledSkips(s: Snapshot, index: uint32)
    ensures Skips(Compiled(s), index) <==>
            s.completed || (index < MAX_UINT32 && forall j | j in s.inFlight :: index < j)
  {
    var least := LeastOr(Compiled(s).inFlight);
    if !s.completed && s.inFlight != {} {
      assert least in s.inFlight;
    }
  }

  /** An interrupted template that left nothing in flight is skipped altogether by the next run. */
  lemma EmptySnapshotSkipsEverything(index: uint32)
    ensures Skips(Compiled(Snapshot(false, {})), index) <==> index != MAX_UINT32
  {
    CompiledSkips(Snapshot(false, {}), index);
  }

  class ResumeInfo {
    var completed: bool
    var inFlight: set<uint32>
    var skipUnder: uint32
    var repeat: set<uint32>
    var doAbove: uint32

    constructor ()
      ensures View() == FRESH
    {
      completed, inFlight, skipUnder, repeat, doAbove := false, {}, 0, {}, 0;
    }

    function View(): Info
      reads this
    {
      Info(completed, inFlight, skipUnder, repeat, doAbove)
    }

    method Clone() returns (copy: ResumeInfo)
      ensures fresh(copy) && copy.View() == View()
    {
      var flying: set<uint32> := {};
      var todo := inFlight;
      while todo != {}
        invariant flying + todo == inFlight
      {
        var u :| u in todo;
        flying, todo := flying + {u}, todo - {u};
      }
      var again: set<uint32> := {};
      todo := repeat;
      while todo != {}
        invariant again + todo == repeat
      {
        var u :| u in todo;
        again, todo := again + {u}, todo - {u};
      }
      copy := new ResumeInfo();
      copy.completed, copy.inFlight, copy.skipUnder := completed, flying, skipUnder;
      copy.repeat, copy.doAbove := again, doAbove;
    }

    /** The body of the loop of ResumeCfg.Compile for one record. */
    method CompileRecord()
      modifies this
      ensures View() == Compiled(old(View().Saved()))
    {
      if completed && inFlight != {} {
        inFlight := {};
      }
      var min: uint32, max: uint32 := MAX_UINT32, 0;
      var todo := inFlight;
      while todo != {}
        invariant todo <= inFlight
        invariant todo == inFlight ==> min == MAX_UINT32 && max == 0
        invariant todo != inFlight ==> min in inFlight && max in inFlight
        invariant forall j | j in inFlight - todo :: min <= j <= max
      {
        var index :| index in todo;
        if index < min { min := index; }
        if index > max { max := index; }
        assert forall j | j in inFlight - (todo - {index}) :: j == index || j in inFlight - todo;
        todo := todo - {index};
      }
      repeat := {};
      todo := inFlight;
      while todo != {}
        invariant repeat + todo == inFlight
        invariant inFlight == (if old(completed) then {} else old(inFlight)) && completed == old(completed)
      {
        var index :| index in todo;
        repeat, todo := repeat + {index}, todo - {index};
      }
      skipUnder, doAbove := min, max;
    }
  }

  /** A record per template ID: those of the interrupted run, and those of the run under way. */
  class ResumeCfg {
    var resumeFrom: map<string, ResumeInfo>
    var current: map<string, ResumeInfo>

    constructor ()
      ensures resumeFrom == map[] && current == map[]
    {
      resumeFrom, current := map[], map[];
    }

    /** Distinct template IDs have distinct records. */
    ghost predicate Valid()
      reads this
    {
      && Separate(resumeFrom)
      && Separate(current)
    }

    method Clone() returns (copy: ResumeCfg)
      requires Valid()
      ensures fresh(copy) && copy.Valid()
      ensures fresh(copy.resumeFrom.Values) && fresh(copy.current.Values)
      ensures SameViews(copy.resumeFrom, resumeFrom) && SameViews(copy.current, current)
    {
      var from := CloneAll(resumeFrom);
      var cur := CloneAll(current);
      copy := new ResumeCfg();
      copy.resumeFrom, copy.current := from, cur;
    }

    /** Turns every loaded record into the skip window of its in-flight indexes. */
    method Compile()
      requires Valid()
      modifies resumeFrom.Values
      ensures forall id | id in resumeFrom :: resumeFrom[id].View() == Compiled(old(resumeFrom[id].View().Saved()))
    {
      var todo := resumeFrom.Keys;
      while todo != {}
        invariant todo <= resumeFrom.Keys
        invariant forall id | id in resumeFrom.Keys - todo ::
                    resumeFrom[id].View() == Compiled(old(resumeFrom[id].View().Saved()))
        invariant forall id | id in todo :: resumeFrom[id].View() == old(resumeFrom[id].View())
      {
        var id :| id in todo;
        resumeFrom[id].CompileRecord();
        todo := todo - {id};
      }
    }
  }

  ghost predicate Separate(records: map<string, ResumeInfo>) {
    forall a, b | a in records && b in records && a != b :: records[a] != records[b]
  }

  ghost predicate SameViews(copy: map<string, ResumeInfo>, records: map<string, ResumeInfo>)
    reads copy.Values, records.Values
  {
    && copy.Keys == records.Keys
    && forall id | id in records :: copy[id].View() == records[id].View()
  }

  method CloneAll(records: map<string, ResumeInfo>) returns (copy: map<string, ResumeInfo>)
    ensures fresh(copy.Values) && Separate(copy) && SameViews(copy, records)
  {
    copy := map[];
    var todo := records.Keys;
    while todo != {}
      invariant todo <= records.Keys && copy.Keys == records.Keys - todo
      invariant forall id | id in copy :: fresh(copy[id])
      invariant Separate(copy)
      invariant forall id | id in copy :: copy[id].View() == records[id].View()
    {
      var id :| id in todo;
      var info := records[id].Clone();
      copy := copy[id := info];
      todo := todo - {id};
    }
  }

  /** Writes the progress of the run under way: what the next run starts from. */
  method SaveResumeConfig(cfg: ResumeCfg) returns (file: map<string, Snapshot>)
    requires cfg.Valid()
    ensures file == map id | id in cfg.current :: cfg.current[id].View().Saved()
  {
    var copy := cfg.Clone();
    copy.resumeFrom := copy.current;
    file := map id | id in copy.resumeFrom :: copy.resumeFrom[id].View().Saved();
    assert forall id | id in file :: file[id] == cfg.current[id].View().Saved();
  }

  /** Reads a resume file at the start of a run: a compiled record per template of the file. */
  method LoadResumeConfig(file: map<string, Snapshot>) returns (cfg: ResumeCfg)
    ensures fresh(cfg) && cfg.Valid() && cfg.current == map[]
    ensures cfg.resumeFrom.Keys == file.Keys
    ensures forall id | id in file :: cfg.resumeFrom[id].View() == Compiled(file[id])
  {
    var records: map<string, ResumeInfo> := map[];
    var todo := file.Keys;
    while todo != {}
      invariant todo <= file.Keys && records.Keys == file.Keys - todo
      invariant forall id | id in records :: fresh(records[id])
      invariant Separate(records)
      invariant forall id | id in records :: records[id].View().Saved() == file[id]
    {
      var id :| id in todo;
      var info := new ResumeInfo();
      info.completed, info.inFlight := file[id].completed, file[id].inFlight;
      records := records[id := info];
      todo := todo - {id};
    }
    cfg := new ResumeCfg();
    cfg.resumeFrom := records;
    cfg.Compile();
  }

  /** A round of saving and loading leaves every template of the run with the window of its own progress. */
  method SaveThenLoad(cfg: ResumeCfg) returns (next: ResumeCfg)
    requires cfg.Valid()
    ensures fresh(next) && next.current == map[]
    ensures next.resumeFrom.Keys == cfg.current.Keys
    ensures forall id | id in cfg.current :: next.resumeFrom[id].View() == Compiled(cfg.current[id].View().Saved())
  {
    var file := SaveResumeConfig(cfg);
    next := LoadResumeConfig(file);
  }
}
