/** The transferred-bytes counter shared by all fetches: every completion
    callback takes a lock, reads the counter, writes it back and lets go. */
module ByteCounter {
  import opened Basics

  const TWO_TO_THE_64 := 0x1_0000_0000_0000_0000
  const TWO_TO_THE_63 := 0x8000_0000_0000_0000

  /** The counter is a signed 64-bit integer; the addition is done unsigned. */
  function Wrap(x: int): int {
    (x + TWO_TO_THE_63) % TWO_TO_THE_64 - TWO_TO_THE_63
  }

  lemma ModShift(a: int, b: int)
    ensures (a % TWO_TO_THE_64 + b) % TWO_TO_THE_64 == (a + b) % TWO_TO_THE_64
  {
    var q := a / TWO_TO_THE_64;
    var r := a % TWO_TO_THE_64 + b;
    assert a + b == r + q * TWO_TO_THE_64;
    ModMultiple(r, q);
  }

  lemma ModMultiple(r: int, q: int)
    ensures (r + q * TWO_TO_THE_64) % TWO_TO_THE_64 == r % TWO_TO_THE_64
  {}

  lemma WrapAdd(a: int, b: int)
    ensures Wrap(Wrap(a) + b) == Wrap(a + b)
    ensures -TWO_TO_THE_63 <= a < TWO_TO_THE_63 ==> Wrap(a) == a
  {
    ModShift(a + TWO_TO_THE_63, b);
  }

  /** The callback of one fetch; it is `Failed` when there is no result. */
  datatype Stage = Pending | Locked | Loaded(tmp: int) | Stored | Done | Failed

  datatype State = State(counter: int, lock: Option<nat>, stages: seq<Stage>)

  predicate InLock(p: Stage) { p.Locked? || p.Loaded? || p.Stored? }

  /** This fetch has been added to the counter. */
  predicate Added(p: Stage) { p.Stored? || p.Done? }

  ghost predicate Init(start: int, sizes: seq<nat>, s: State) {
    && s.counter == Wrap(start) && s.lock == None && |s.stages| == |sizes|
    && forall i | 0 <= i < |sizes| :: s.stages[i] == Pending
  }

  /** One atomic step of the callback of fetch `i`, which moved `sizes[i]` bytes. */
  ghost predicate Step(sizes: seq<nat>, i: nat, s: State, s': State) {
    i < |s.stages| == |sizes| &&
    match s.stages[i]
    case Pending =>
      || s' == s.(stages := s.stages[i := Failed])
      || (s.lock == None && s' == s.(lock := Some(i), stages := s.stages[i := Locked]))
    case Locked => s' == s.(stages := s.stages[i := Loaded(s.counter)])
    case Loaded(tmp) => s' == s.(counter := Wrap(tmp + sizes[i]), stages := s.stages[i := Stored])
    case Stored => s' == s.(lock := None, stages := s.stages[i := Done])
    case Done => false
    case Failed => false
  }

  ghost predicate Next(sizes: seq<nat>, s: State, s': State) {
    exists i :: Step(sizes, i, s, s')
  }

  ghost predicate StepAt(sizes: seq<nat>, run: seq<State>, k: nat)
    requires k + 1 < |run|
  {
    Next(sizes, run[k], run[k + 1])
  }

  ghost predicate IsRun(start: int, sizes: seq<nat>, run: seq<State>) {
    && run != [] && Init(start, sizes, run[0])
    && forall k | 0 <= k < |run| - 1 :: StepAt(sizes, run, k)
  }

  /** The bytes of the fetches that have been added. */
  function Bytes(sizes: seq<nat>, stages: seq<Stage>): nat
    requires |sizes| == |stages|
  {
    if sizes == [] then 0
    else Bytes(sizes[1..], stages[1..]) + if Added(stages[0]) then sizes[0] else 0
  }

  lemma {:induction false} BytesUpdate(sizes: seq<nat>, stages: seq<Stage>, i: nat, p: Stage)
    requires i < |sizes| == |stages|
    ensures Bytes(sizes, stages[i := p]) - (if Added(p) then sizes[i] else 0)
         == Bytes(sizes, stages) - (if Added(stages[i]) then sizes[i] else 0)
    decreases i
  {
    if i == 0 {
      assert stages[0 := p][1..] == stages[1..];
    } else {
      assert stages[i := p][1..] == stages[1..][i - 1 := p];
      BytesUpdate(sizes[1..], stages[1..], i - 1, p);
    }
  }

  ghost predicate Inv(start: int, sizes: seq<nat>, s: State) {
    && |s.stages| == |sizes|
    && (forall i | 0 <= i < |s.stages| && InLock(s.stages[i]) :: s.lock == Some(i))
    && (s.lock.Some? ==> s.lock.value < |s.stages| && InLock(s.stages[s.lock.value]))
    && (forall i | 0 <= i < |s.stages| && s.stages[i].Loaded? :: s.stages[i].tmp == s.counter)
    && s.counter == Wrap(start + Bytes(sizes, s.stages))
  }

  lemma {:induction false} NoBytesYet(sizes: seq<nat>, stages: seq<Stage>)
    requires |sizes| == |stages| && forall i | 0 <= i < |stages| :: stages[i] == Pending
    ensures Bytes(sizes, stages) == 0
    decreases |sizes|
  {
    if sizes != [] { NoBytesYet(sizes[1..], stages[1..]); }
  }

  lemma StepKeeps(start: int, sizes: seq<nat>, i: nat, s: State, s': State)
    requires Inv(start, sizes, s) && Step(sizes, i, s, s')
    ensures Inv(start, sizes, s')
  {
    BytesUpdate(sizes, s.stages, i, s'.stages[i]);
    WrapAdd(start + Bytes(sizes, s.stages), sizes[i]);
    forall j | 0 <= j < |s'.stages| && InLock(s'.stages[j]) ensures s'.lock == Some(j) {
      if j != i { assert InLock(s.stages[j]); }
    }
  }

  lemma {:induction false} RunKeeps(start: int, sizes: seq<nat>, run: seq<State>, k: nat)
    requires IsRun(start, sizes, run) && k < |run|
    ensures forall j | 0 <= j <= k :: Inv(start, sizes, run[j])
    decreases k
  {
    if k == 0 {
      NoBytesYet(sizes, run[0].stages);
    } else {
      RunKeeps(start, sizes, run, k - 1);
      assert StepAt(sizes, run, k - 1);
      var i :| Step(sizes, i, run[k - 1], run[k]);
      StepKeeps(start, sizes, i, run[k - 1], run[k]);
    }
  }

  /** Main result: in every interleaving the counter is its start value plus
      the bytes of the completed fetches, up to the width of the counter; no
      update is lost. */
  lemma NoUpdateIsLost(start: int, sizes: seq<nat>, run: seq<State>, k: nat)
    requires IsRun(start, sizes, run) && k < |run| && -TWO_TO_THE_63 <= start < TWO_TO_THE_63
    ensures |run[k].stages| == |sizes|
    ensures run[k].counter == Wrap(start + Bytes(sizes, run[k].stages))
    ensures start + Bytes(sizes, run[k].stages) < TWO_TO_THE_63 ==>
      run[k].counter == start + Bytes(sizes, run[k].stages)
  {
    RunKeeps(start, sizes, run, k);
    WrapAdd(start + Bytes(sizes, run[k].stages), 0);
  }

  /** A fetch that has its result can add its bytes, whenever nobody holds the lock:
      four steps of its own, after which it has. */
  lemma BytesCanBeAdded(sizes: seq<nat>, s: State, i: nat)
    requires i < |s.stages| == |sizes| && s.stages[i] == Pending && s.lock == None
    ensures exists a, b, c ::
      && Step(sizes, i, s, a) && Step(sizes, i, a, b) && Step(sizes, i, b, c)
      && Step(sizes, i, c, s.(counter := Wrap(s.counter + sizes[i]), stages := s.stages[i := Done]))
  {
    var a := s.(lock := Some(i), stages := s.stages[i := Locked]);
    var b := a.(stages := a.stages[i := Loaded(a.counter)]);
    var c := b.(counter := Wrap(b.counter + sizes[i]), stages := b.stages[i := Stored]);
    assert Step(sizes, i, s, a) && Step(sizes, i, a, b) && Step(sizes, i, b, c);
    assert c.stages[i := Done] == s.stages[i := Done];
    assert Step(sizes, i, c, c.(lock := None, stages := c.stages[i := Done]));
  }

  /** While some fetch is not done, some step can be taken. */
  lemma SomebodyMoves(start: int, sizes: seq<nat>, s: State, i: nat)
    requires Inv(start, sizes, s) && i < |s.stages| && s.stages[i] != Done && s.stages[i] != Failed
    ensures exists s' :: Next(sizes, s, s')
  {
    var j := if s.lock.Some? then s.lock.value else i;
    var s' := s.(stages := s.stages[j := Failed]);
    if s.stages[j].Locked? { s' := s.(stages := s.stages[j := Loaded(s.counter)]); }
    if s.stages[j].Loaded? {
      s' := s.(counter := Wrap(s.stages[j].tmp + sizes[j]), stages := s.stages[j := Stored]);
    }
    if s.stages[j].Stored? { s' := s.(lock := None, stages := s.stages[j := Done]); }
    assert Step(sizes, j, s, s');
    assert Next(sizes, s, s');
  }

  function Total(sizes: seq<nat>): nat {
    if sizes == [] then 0 else Total(sizes[1..]) + sizes[0]
  }

  lemma {:induction false} AllBytes(sizes: seq<nat>, stages: seq<Stage>)
    requires |sizes| == |stages| && forall i | 0 <= i < |stages| :: stages[i] == Done
    ensures Bytes(sizes, stages) == Total(sizes)
    decreases |sizes|
  {
    if sizes != [] { AllBytes(sizes[1..], stages[1..]); }
  }
}
