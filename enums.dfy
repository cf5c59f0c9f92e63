/**
 * TaskStatus and TaskPriority: four values each, whose wire value is the constant's own name,
 * read case-insensitively by `fromValue` (null giving the default) and exactly by `valueOf`.
 */
module Enums {
  import opened Wrappers
  import opened Strings

  datatype TaskStatus = Pending | InProgress | Completed | Cancelled

  datatype TaskPriority = Low | Medium | High | Urgent

  /** `values()`, in declaration order. */
  const AllStatuses: seq<TaskStatus> := [Pending, InProgress, Completed, Cancelled]
  const AllPriorities: seq<TaskPriority> := [Low, Medium, High, Urgent]

  /** `TaskStatus.getValue()`; the Java constant's name is the same string. */
  function StatusValue(s: TaskStatus): string {
    match s
    case Pending => "PENDING"
    case InProgress => "IN_PROGRESS"
    case Completed => "COMPLETED"
    case Cancelled => "CANCELLED"
  }

  /** `TaskPriority.getValue()`; the Java constant's name is the same string. */
  function PriorityValue(p: TaskPriority): string {
    match p
    case Low => "LOW"
    case Medium => "MEDIUM"
    case High => "HIGH"
    case Urgent => "URGENT"
  }

  /** The position of a status in `values()`. */
  function StatusIndex(s: TaskStatus): (i: nat)
    ensures i < |AllStatuses| && AllStatuses[i] == s
  {
    match s
    case Pending => 0
    case InProgress => 1
    case Completed => 2
    case Cancelled => 3
  }

  /** The position of a priority in `values()`. */
  function PriorityIndex(p: TaskPriority): (i: nat)
    ensures i < |AllPriorities| && AllPriorities[i] == p
  {
    match p
    case Low => 0
    case Medium => 1
    case High => 2
    case Urgent => 3
  }

  /** The first status in `vals` whose value equals `v` ignoring case. */
  function FindStatus(vals: seq<TaskStatus>, v: string): (r: Option<TaskStatus>)
    ensures r.Some? ==> r.value in vals && EqualsIgnoreCase(StatusValue(r.value), v)
    ensures r.None? <==> forall i :: 0 <= i < |vals| ==> !EqualsIgnoreCase(StatusValue(vals[i]), v)
  {
    if vals == [] then None
    else if EqualsIgnoreCase(StatusValue(vals[0]), v) then Some(vals[0])
    else FindStatus(vals[1..], v)
  }

  /** The first priority in `vals` whose value equals `v` ignoring case. */
  function FindPriority(vals: seq<TaskPriority>, v: string): (r: Option<TaskPriority>)
    ensures r.Some? ==> r.value in vals && EqualsIgnoreCase(PriorityValue(r.value), v)
    ensures r.None? <==> forall i :: 0 <= i < |vals| ==> !EqualsIgnoreCase(PriorityValue(vals[i]), v)
  {
    if vals == [] then None
    else if EqualsIgnoreCase(PriorityValue(vals[0]), v) then Some(vals[0])
    else FindPriority(vals[1..], v)
  }

  /** A search of all of `values()` that finds nothing rules out every status. */
  lemma FindStatusCovers(v: string)
    requires FindStatus(AllStatuses, v).None?
    ensures forall s: TaskStatus :: !EqualsIgnoreCase(StatusValue(s), v)
  {
    forall s: TaskStatus ensures !EqualsIgnoreCase(StatusValue(s), v) {
      assert AllStatuses[StatusIndex(s)] == s;
    }
  }

  /** A search of all of `values()` that finds nothing rules out every priority. */
  lemma FindPriorityCovers(v: string)
    requires FindPriority(AllPriorities, v).None?
    ensures forall p: TaskPriority :: !EqualsIgnoreCase(PriorityValue(p), v)
  {
    forall p: TaskPriority ensures !EqualsIgnoreCase(PriorityValue(p), v) {
      assert AllPriorities[PriorityIndex(p)] == p;
    }
  }

  /**
   * `TaskStatus.fromValue`: null is PENDING, otherwise the status whose value equals the input
   * ignoring case, and IllegalArgumentException when there is none.
   */
  function StatusFromValue(value: Option<string>): (r: Result<TaskStatus>)
    ensures value.None? ==> r == Success(Pending)
    ensures value.Some? && r.Success? ==> EqualsIgnoreCase(StatusValue(r.value), value.value)
    ensures r.Failure? <==> value.Some? && forall s: TaskStatus :: !EqualsIgnoreCase(StatusValue(s), value.value)
  {
    if value.None? then Success(Pending)
    else
      match FindStatus(AllStatuses, value.value)
      case Some(s) => Success(s)
      case None =>
        FindStatusCovers(value.value);
        Failure("Invalid task status: " + value.value)
  }

  /**
   * `TaskPriority.fromValue`: null is MEDIUM, otherwise the priority whose value equals the
   * input ignoring case, and IllegalArgumentException when there is none.
   */
  function PriorityFromValue(value: Option<string>): (r: Result<TaskPriority>)
    ensures value.None? ==> r == Success(Medium)
    ensures value.Some? && r.Success? ==> EqualsIgnoreCase(PriorityValue(r.value), value.value)
    ensures r.Failure? <==> value.Some? && forall p: TaskPriority :: !EqualsIgnoreCase(PriorityValue(p), value.value)
  {
    if value.None? then Success(Medium)
    else
      match FindPriority(AllPriorities, value.value)
      case Some(p) => Success(p)
      case None =>
        FindPriorityCovers(value.value);
        Failure("Invalid task priority: " + value.value)
  }

  /** `Enum.valueOf(TaskStatus.class, name)`: the constant with exactly this name. */
  function StatusValueOf(name: string): (r: Result<TaskStatus>)
    ensures r.Success? <==> exists s: TaskStatus :: StatusValue(s) == name
    ensures r.Success? ==> StatusValue(r.value) == name
  {
    if name == "PENDING" then assert StatusValue(Pending) == name; Success(Pending)
    else if name == "IN_PROGRESS" then assert StatusValue(InProgress) == name; Success(InProgress)
    else if name == "COMPLETED" then assert StatusValue(Completed) == name; Success(Completed)
    else if name == "CANCELLED" then assert StatusValue(Cancelled) == name; Success(Cancelled)
    else Failure("No enum constant com.taskapp.enums.TaskStatus." + name)
  }

  /** `Enum.valueOf(TaskPriority.class, name)`: the constant with exactly this name. */
  function PriorityValueOf(name: string): (r: Result<TaskPriority>)
    ensures r.Success? <==> exists p: TaskPriority :: PriorityValue(p) == name
    ensures r.Success? ==> PriorityValue(r.value) == name
  {
    if name == "LOW" then assert PriorityValue(Low) == name; Success(Low)
    else if name == "MEDIUM" then assert PriorityValue(Medium) == name; Success(Medium)
    else if name == "HIGH" then assert PriorityValue(High) == name; Success(High)
    else if name == "URGENT" then assert PriorityValue(Urgent) == name; Success(Urgent)
    else Failure("No enum constant com.taskapp.enums.TaskPriority." + name)
  }

  /** No two statuses have values equal ignoring case, so the search's first match is the only one. */
  lemma StatusValuesDistinct(a: TaskStatus, b: TaskStatus)
    requires EqualsIgnoreCase(StatusValue(a), StatusValue(b))
    ensures a == b
  {
    assert !CharEqualsIgnoreCase(StatusValue(Completed)[2], StatusValue(Cancelled)[2]);
  }

  /** No two priorities have values equal ignoring case. */
  lemma PriorityValuesDistinct(a: TaskPriority, b: TaskPriority)
    requires EqualsIgnoreCase(PriorityValue(a), PriorityValue(b))
    ensures a == b
  {
    assert !CharEqualsIgnoreCase(PriorityValue(Medium)[0], PriorityValue(Urgent)[0]);
  }

  /** fromValue reads back every value: `fromValue(s.getValue()) == s`. */
  lemma {:induction false} StatusRoundTrip(s: TaskStatus)
    ensures StatusFromValue(Some(StatusValue(s))) == Success(s)
  {
    EqualsIgnoreCaseReflexive(StatusValue(s));
    var r := StatusFromValue(Some(StatusValue(s)));
    assert r.Success?;
    StatusValuesDistinct(r.value, s);
  }

  /** fromValue reads back every value: `fromValue(p.getValue()) == p`. */
  lemma {:induction false} PriorityRoundTrip(p: TaskPriority)
    ensures PriorityFromValue(Some(PriorityValue(p))) == Success(p)
  {
    EqualsIgnoreCaseReflexive(PriorityValue(p));
    var r := PriorityFromValue(Some(PriorityValue(p)));
    assert r.Success?;
    PriorityValuesDistinct(r.value, p);
  }

  /** fromValue finds THE status matching the input ignoring case, whatever the input's case. */
  lemma StatusFromValueUnique(v: string, s: TaskStatus)
    requires EqualsIgnoreCase(StatusValue(s), v)
    ensures StatusFromValue(Some(v)) == Success(s)
  {
    var r := StatusFromValue(Some(v));
    assert r.Success?;
    EqualsIgnoreCaseSymmetric(StatusValue(s), v);
    EqualsIgnoreCaseTransitive(StatusValue(r.value), v, StatusValue(s));
    StatusValuesDistinct(r.value, s);
  }

  /** fromValue finds THE priority matching the input ignoring case, whatever the input's case. */
  lemma PriorityFromValueUnique(v: string, p: TaskPriority)
    requires EqualsIgnoreCase(PriorityValue(p), v)
    ensures PriorityFromValue(Some(v)) == Success(p)
  {
    var r := PriorityFromValue(Some(v));
    assert r.Success?;
    EqualsIgnoreCaseSymmetric(PriorityValue(p), v);
    EqualsIgnoreCaseTransitive(PriorityValue(r.value), v, PriorityValue(p));
    PriorityValuesDistinct(r.value, p);
  }

  /**
   * Java's case rule lets non-ASCII spellings through: the dotless i, the long s and the dotted
   * capital I all read back as the value they fold onto.
   */
  lemma {:induction false} DotlessIStatus()
    ensures StatusFromValue(Some("pend\U{0131}ng")) == Success(Pending)
  {
    var v := "pend\U{0131}ng";
    assert EqualsIgnoreCase(StatusValue(Pending), v) by {
      forall i | 0 <= i < |v| ensures CharEqualsIgnoreCase(StatusValue(Pending)[i], v[i]) {
      }
    }
    StatusFromValueUnique(v, Pending);
  }

  lemma {:induction false} LongSStatus()
    ensures StatusFromValue(Some("in_progre\U{017F}\U{017F}")) == Success(InProgress)
  {
    var v := "in_progre\U{017F}\U{017F}";
    assert EqualsIgnoreCase(StatusValue(InProgress), v) by {
      forall i | 0 <= i < |v| ensures CharEqualsIgnoreCase(StatusValue(InProgress)[i], v[i]) {
      }
    }
    StatusFromValueUnique(v, InProgress);
  }

  lemma {:induction false} DottedCapitalIStatus()
    ensures StatusFromValue(Some("\U{0130}n_progress")) == Success(InProgress)
  {
    var v := "\U{0130}n_progress";
    assert EqualsIgnoreCase(StatusValue(InProgress), v) by {
      forall i | 0 <= i < |v| ensures CharEqualsIgnoreCase(StatusValue(InProgress)[i], v[i]) {
      }
    }
    StatusFromValueUnique(v, InProgress);
  }

  lemma {:induction false} DotlessIPriority()
    ensures PriorityFromValue(Some("h\U{0131}gh")) == Success(High)
  {
    var v := "h\U{0131}gh";
    assert EqualsIgnoreCase(PriorityValue(High), v) by {
      forall i | 0 <= i < |v| ensures CharEqualsIgnoreCase(PriorityValue(High)[i], v[i]) {
      }
    }
    PriorityFromValueUnique(v, High);
  }

  /** `toString()` is `getValue()`, so it too is read back by fromValue. */
  function StatusToString(s: TaskStatus): (r: string)
    ensures r == StatusValue(s)
    ensures StatusFromValue(Some(r)) == Success(s)
  {
    StatusRoundTrip(s);
    StatusValue(s)
  }

  /** `toString()` is `getValue()`, so it too is read back by fromValue. */
  function PriorityToString(p: TaskPriority): (r: string)
    ensures r == PriorityValue(p)
    ensures PriorityFromValue(Some(r)) == Success(p)
  {
    PriorityRoundTrip(p);
    PriorityValue(p)
  }
}
