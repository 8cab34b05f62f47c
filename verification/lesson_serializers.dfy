/**
 * The lesson write rules (lessons/serializers.py): the checks on absences,
 * completion and date applied when a lesson is created and when one is
 * updated, and the silent filtering of the absence list down to the
 * members of the lesson's student group.
 *
 * Dates are integer timestamps and the current time `now` is a parameter.
 * The student groups are given as a map from group id to its member ids.
 */
module LessonSerializers {
  import opened Common
  import opened LessonModels

  /** The request field a validation error is reported under. */
  datatype Field = Status | StudentGroup

  /** A field-scoped validation error, with the message the service returns. */
  datatype FieldError = FieldError(field: Field, message: string)

  /** Absences may only be recorded on a completed lesson. */
  const AbsencesBeforeCompletion := FieldError(Status, "Нельзя добавить отсутствующих студентов до завершения занятия.")

  /** Absences need a student group to be checked against. */
  const GroupRequiredForAbsences := FieldError(StudentGroup, "Введите группу обучаемых, чтобы добавить или изменить отсутствующих.")

  /** A lesson cannot be completed before its scheduled date. */
  const CompletionBeforeDate := FieldError(Status, "Занятия нельзя завершить раньше назначенной даты.")

  /** The members of group `g`; a group without a row has none (the membership query finds nothing). */
  function MembersOf(groups: map<GroupId, set<StudentId>>, g: GroupId): set<StudentId>
  {
    if g in groups then groups[g] else {}
  }

  /** `a` can be obtained from `b` by deleting entries, keeping the order of the rest. */
  predicate IsSubsequence<T(==)>(a: seq<T>, b: seq<T>)
    decreases |b|
  {
    if a == [] then true
    else if b == [] then false
    else if a[|a| - 1] == b[|b| - 1] then IsSubsequence(a[..|a| - 1], b[..|b| - 1])
    else IsSubsequence(a, b[..|b| - 1])
  }

  /**
   * The entries of `students` that belong to `group`, in input order.
   * Membership, multiplicity (KeepMembersContents) and order
   * (KeepMembersIsSubsequence) together pin the result down: it keeps every
   * occurrence of a member and nothing else.
   */
  function KeepMembers(students: seq<StudentId>, group: set<StudentId>): (r: seq<StudentId>)
    ensures |r| <= |students|
    decreases |students|
  {
    if students == [] then []
    else
      var init := students[..|students| - 1];
      var last := students[|students| - 1];
      assert students == init + [last];
      if last in group then KeepMembers(init, group) + [last] else KeepMembers(init, group)
  }

  /** The filter keeps exactly the group members of the input, each as often as the input has it. */
  lemma {:induction false} KeepMembersContents(students: seq<StudentId>, group: set<StudentId>)
    ensures forall x :: x in KeepMembers(students, group) <==> x in students && x in group
    ensures forall x :: multiset(KeepMembers(students, group))[x] == if x in group then multiset(students)[x] else 0
    decreases |students|
  {
    if students != [] {
      var init := students[..|students| - 1];
      var last := students[|students| - 1];
      assert students == init + [last];
      KeepMembersContents(init, group);
      assert multiset(students) == multiset(init) + multiset{last};
      if last in group {
        assert multiset(KeepMembers(students, group)) == multiset(KeepMembers(init, group)) + multiset{last};
      }
    }
  }

  /** The filter deletes entries and never reorders: its result is a subsequence of the input. */
  lemma {:induction false} KeepMembersIsSubsequence(students: seq<StudentId>, group: set<StudentId>)
    ensures IsSubsequence(KeepMembers(students, group), students)
    decreases |students|
  {
    if students != [] {
      var init := students[..|students| - 1];
      var last := students[|students| - 1];
      var kept := KeepMembers(init, group);
      KeepMembersIsSubsequence(init, group);
      if last in group {
        assert (kept + [last])[..|kept|] == kept;
      } else {
        KeepMembersContents(init, group);
        assert kept != [] ==> kept[|kept| - 1] in kept;
      }
    }
  }

  /** One more entry of the input: kept when it belongs to the group, dropped otherwise. */
  lemma KeepMembersStep(students: seq<StudentId>, i: nat, group: set<StudentId>)
    requires i < |students|
    ensures KeepMembers(students[..i + 1], group) ==
      if students[i] in group then KeepMembers(students[..i], group) + [students[i]] else KeepMembers(students[..i], group)
  {
    assert students[..i + 1][..i] == students[..i];
  }

  /** The loop that rebuilds the absence list, appending each entry the group query finds. */
  method FilterAbsences(students: seq<StudentId>, group: set<StudentId>) returns (kept: seq<StudentId>)
    ensures kept == KeepMembers(students, group)
  {
    kept := [];
    var i := 0;
    while i < |students|
      invariant 0 <= i <= |students|
      invariant kept == KeepMembers(students[..i], group)
    {
      KeepMembersStep(students, i, group);
      if students[i] in group {
        kept := kept + [students[i]];
      }
      i := i + 1;
    }
    assert students[..|students|] == students;
  }

  /**
   * The validated fields of a create request. Keys the request leaves out
   * are None; a null teacher or group is None as well, as both store a null.
   */
  datatype LessonInput = LessonInput(
    subject: SubjectId,
    teacher: Option<TeacherId>,
    group: Option<GroupId>,
    date: int,
    status: Option<bool>,
    absences: Option<seq<StudentId>>)

  /**
   * The validated fields of an update request, full or partial: None is a
   * key the request leaves out. Teacher and group can also be sent as
   * null, which the update stores, hence Some(None).
   */
  datatype LessonPatch = LessonPatch(
    subject: Option<SubjectId>,
    teacher: Option<Option<TeacherId>>,
    group: Option<Option<GroupId>>,
    date: Option<int>,
    status: Option<bool>,
    absences: Option<seq<StudentId>>)

  /** The create rule, as a value: the accepted fields, or the first check that fails. */
  function CreateRule(attrs: LessonInput, groups: map<GroupId, set<StudentId>>, now: int): (r: Result<LessonInput, FieldError>)
    // absences on a lesson not (yet) marked completed: rejected whether or not a group is given
    ensures attrs.absences.Some? && attrs.status != Some(true) ==> r == Err(AbsencesBeforeCompletion)
    // absences on a completed lesson without a group
    ensures r == Err(GroupRequiredForAbsences) <==> attrs.absences.Some? && attrs.status == Some(true) && attrs.group.None?
    // completion with a date in the future; a missing or false status is never checked against the date
    ensures r == Err(CompletionBeforeDate) <==>
      (attrs.absences.Some? ==> attrs.group.Some?) && attrs.status == Some(true) && attrs.date > now
    ensures r.Ok? <==>
      (attrs.absences.Some? ==> attrs.status == Some(true) && attrs.group.Some?) &&
      !(attrs.status == Some(true) && attrs.date > now)
    // accepted: every field but the absences passes through unchanged
    ensures r.Ok? ==> r.value.(absences := attrs.absences) == attrs
    ensures r.Ok? ==> (r.value.absences.Some? <==> attrs.absences.Some?)
    // accepted absences: the group members among the input, in input order
    ensures r.Ok? && attrs.absences.Some? ==>
      r.value.absences.value == KeepMembers(attrs.absences.value, MembersOf(groups, attrs.group.value))
    ensures r.Ok? && attrs.absences.Some? ==>
      IsSubsequence(r.value.absences.value, attrs.absences.value) &&
      Elements(r.value.absences.value) <= Elements(attrs.absences.value) &&
      Elements(r.value.absences.value) <= MembersOf(groups, attrs.group.value)
    // accepted: absences only on a completed lesson with a group, completion only once the date has come
    ensures r.Ok? && r.value.absences.Some? ==> r.value.status == Some(true) && r.value.group.Some?
    ensures r.Ok? && r.value.status == Some(true) ==> r.value.date <= now
    // nothing to check: the fields come back as they were
    ensures attrs.absences.None? && attrs.status.None? ==> r == Ok(attrs)
  {
    if attrs.absences.Some? && attrs.status != Some(true) then Err(AbsencesBeforeCompletion)
    else if attrs.absences.Some? && attrs.group.None? then Err(GroupRequiredForAbsences)
    else if attrs.status == Some(true) && attrs.date > now then Err(CompletionBeforeDate)
    else if attrs.absences.Some? then
      KeepMembersIsSubsequence(attrs.absences.value, MembersOf(groups, attrs.group.value));
      KeepMembersContents(attrs.absences.value, MembersOf(groups, attrs.group.value));
      Ok(attrs.(absences := Some(KeepMembers(attrs.absences.value, MembersOf(groups, attrs.group.value)))))
    else Ok(attrs)
  }

  /** The create serializer's validate step: pops the absence list and rebuilds it from group members. */
  method Validate(attrs: LessonInput, groups: map<GroupId, set<StudentId>>, now: int) returns (r: Result<LessonInput, FieldError>)
    ensures r == CreateRule(attrs, groups, now)
  {
    var validated := attrs;
    if attrs.absences.Some? {
      if attrs.status != Some(true) {
        return Err(AbsencesBeforeCompletion);
      }
      if attrs.group.None? {
        return Err(GroupRequiredForAbsences);
      }
      var kept := FilterAbsences(attrs.absences.value, MembersOf(groups, attrs.group.value));
      validated := validated.(absences := Some(kept));
    }
    if validated.status.Some? {
      if validated.status.value && validated.date > now {
        return Err(CompletionBeforeDate);
      }
    }
    return Ok(validated);
  }

  /** The group a patch sets, if it sets one (a null counts as none). */
  function IncomingGroup(data: LessonPatch): Option<GroupId>
  {
    if data.group.Some? then data.group.value else None
  }

  /** The group absences are filtered by on update: the incoming one if given, else the stored one. */
  function ResolvedGroup(instance: Lesson, data: LessonPatch): Option<GroupId>
  {
    if IncomingGroup(data).Some? then IncomingGroup(data) else instance.group
  }

  /**
   * The update rule, as a value. Each absence check looks at the stored
   * value and the incoming one; the group check comes before the status
   * check, the other way round from create.
   */
  function UpdateRule(instance: Lesson, data: LessonPatch, groups: map<GroupId, set<StudentId>>, now: int): (r: Result<LessonPatch, FieldError>)
    // the date is read only once the absence checks have passed; the group check is the only one that can stop a completing request first
    requires data.status == Some(true) && data.date.None? ==>
      data.absences.Some? && instance.group.None? && IncomingGroup(data).None?
    // absences without a group, stored or incoming: rejected, whatever the status
    ensures r == Err(GroupRequiredForAbsences) <==>
      data.absences.Some? && instance.group.None? && IncomingGroup(data).None?
    // absences with a group, but the lesson is completed neither before nor by this update
    ensures r == Err(AbsencesBeforeCompletion) <==>
      data.absences.Some? && ResolvedGroup(instance, data).Some? && !instance.status && data.status != Some(true)
    // completion with a date in the future; a missing or false status is never checked against the date
    ensures r == Err(CompletionBeforeDate) <==>
      (data.absences.Some? ==> ResolvedGroup(instance, data).Some? && (instance.status || data.status == Some(true))) &&
      data.status == Some(true) && data.date.value > now
    ensures r.Ok? <==>
      (data.absences.Some? ==> ResolvedGroup(instance, data).Some? && (instance.status || data.status == Some(true))) &&
      !(data.status == Some(true) && data.date.value > now)
    // accepted: every field but the absences passes through unchanged
    ensures r.Ok? ==> r.value.(absences := data.absences) == data
    ensures r.Ok? ==> (r.value.absences.Some? <==> data.absences.Some?)
    // accepted absences: the members of the resolved group among the input, in input order
    ensures r.Ok? && data.absences.Some? ==>
      r.value.absences.value == KeepMembers(data.absences.value, MembersOf(groups, ResolvedGroup(instance, data).value))
    ensures r.Ok? && data.absences.Some? ==>
      IsSubsequence(r.value.absences.value, data.absences.value) &&
      Elements(r.value.absences.value) <= Elements(data.absences.value) &&
      Elements(r.value.absences.value) <= MembersOf(groups, ResolvedGroup(instance, data).value)
  {
    if data.absences.Some? && instance.group.None? && IncomingGroup(data).None? then Err(GroupRequiredForAbsences)
    else if data.absences.Some? && !instance.status && data.status != Some(true) then Err(AbsencesBeforeCompletion)
    else if data.status == Some(true) && data.date.value > now then Err(CompletionBeforeDate)
    else if data.absences.Some? then
      KeepMembersIsSubsequence(data.absences.value, MembersOf(groups, ResolvedGroup(instance, data).value));
      KeepMembersContents(data.absences.value, MembersOf(groups, ResolvedGroup(instance, data).value));
      Ok(data.(absences := Some(KeepMembers(data.absences.value, MembersOf(groups, ResolvedGroup(instance, data).value)))))
    else Ok(data)
  }

  /** The checking half of the update serializer, before anything is written. */
  method CheckUpdate(instance: Lesson, data: LessonPatch, groups: map<GroupId, set<StudentId>>, now: int)
    returns (r: Result<LessonPatch, FieldError>)
    // the date is read only once the absence checks have passed; the group check is the only one that can stop a completing request first
    requires data.status == Some(true) && data.date.None? ==>
      data.absences.Some? && instance.group.None? && IncomingGroup(data).None?
    ensures r == UpdateRule(instance, data, groups, now)
  {
    var validated := data;
    if data.absences.Some? {
      if instance.group.None? && IncomingGroup(data).None? {
        return Err(GroupRequiredForAbsences);
      }
      if !instance.status && data.status != Some(true) {
        return Err(AbsencesBeforeCompletion);
      }
      var group := if IncomingGroup(data).Some? then IncomingGroup(data).value else instance.group.value;
      var kept := FilterAbsences(data.absences.value, MembersOf(groups, group));
      validated := validated.(absences := Some(kept));
    }
    if validated.status.Some? {
      if validated.status.value && validated.date.value > now {
        return Err(CompletionBeforeDate);
      }
    }
    return Ok(validated);
  }

  /** The row a validated create request stores: status defaults to false, absences to none. */
  function NewLesson(attrs: LessonInput): Lesson
  {
    Lesson(
      attrs.subject, attrs.teacher, attrs.group, attrs.date,
      if attrs.status.Some? then attrs.status.value else false,
      if attrs.absences.Some? then Elements(attrs.absences.value) else {})
  }

  /** The generic update: every field the patch carries overwrites the stored one. */
  function Apply(instance: Lesson, data: LessonPatch): Lesson
  {
    Lesson(
      if data.subject.Some? then data.subject.value else instance.subject,
      if data.teacher.Some? then data.teacher.value else instance.teacher,
      if data.group.Some? then data.group.value else instance.group,
      if data.date.Some? then data.date.value else instance.date,
      if data.status.Some? then data.status.value else instance.status,
      if data.absences.Some? then Elements(data.absences.value) else instance.absent)
  }

  /**
   * The invariants the create path establishes for a lesson row: absences
   * only on a completed lesson with a group, absences drawn from that
   * group's members, and completion only once the date has come.
   */
  predicate Consistent(lesson: Lesson, groups: map<GroupId, set<StudentId>>, now: int)
  {
    && (lesson.absent != {} ==> lesson.status && lesson.group.Some?)
    && (lesson.group.Some? ==> lesson.absent <= MembersOf(groups, lesson.group.value))
    && (lesson.status ==> lesson.date <= now)
  }

  /** Create: validate, then store a new row; a rejected request stores nothing. */
  method Create(table: LessonTable, attrs: LessonInput, groups: map<GroupId, set<StudentId>>, now: int)
    returns (r: Result<LessonId, FieldError>)
    requires table.Valid()
    modifies table
    ensures table.Valid()
    ensures r.Err? ==> CreateRule(attrs, groups, now) == Err(r.error) && table.rows == old(table.rows)
    ensures r.Ok? ==> CreateRule(attrs, groups, now).Ok? && r.value !in old(table.rows)
    ensures r.Ok? ==> table.rows == old(table.rows)[r.value := NewLesson(CreateRule(attrs, groups, now).value)]
    // the stored row: status true exactly when the request said so, and Consistent holds
    ensures r.Ok? ==> table.rows[r.value].status == (attrs.status == Some(true))
    ensures r.Ok? ==> Consistent(table.rows[r.value], groups, now)
    ensures r.Ok? && attrs.absences.Some? ==> table.rows[r.value].absent <= Elements(attrs.absences.value)
  {
    var validated := Validate(attrs, groups, now);
    match validated {
      case Err(e) =>
        r := Err(e);
      case Ok(v) =>
        var id := table.Insert(NewLesson(v));
        r := Ok(id);
    }
  }

  /** Update: check first, then write every given field; a rejected request leaves the row, absences included, as it was. */
  method Update(table: LessonTable, id: LessonId, data: LessonPatch, groups: map<GroupId, set<StudentId>>, now: int)
    returns (r: Result<Lesson, FieldError>)
    requires table.Valid() && id in table.rows
    // the date is read only once the absence checks have passed; the group check is the only one that can stop a completing request first
    requires data.status == Some(true) && data.date.None? ==>
      data.absences.Some? && table.rows[id].group.None? && IncomingGroup(data).None?
    modifies table
    ensures table.Valid() && table.nextId == old(table.nextId)
    ensures r.Err? ==> UpdateRule(old(table.rows[id]), data, groups, now) == Err(r.error) && table.rows == old(table.rows)
    ensures r.Ok? ==> UpdateRule(old(table.rows[id]), data, groups, now).Ok?
    ensures r.Ok? ==> r.value == Apply(old(table.rows[id]), UpdateRule(old(table.rows[id]), data, groups, now).value)
    ensures r.Ok? ==> table.rows == old(table.rows)[id := r.value]
    // stored absences: the supplied ones narrowed to the resolved group, or the old ones if none were supplied
    ensures r.Ok? && data.absences.Some? ==>
      r.value.absent <= Elements(data.absences.value) &&
      r.value.absent <= MembersOf(groups, ResolvedGroup(old(table.rows[id]), data).value)
    ensures r.Ok? && data.absences.None? ==> r.value.absent == old(table.rows[id]).absent
  {
    var instance := table.rows[id];
    var checked := CheckUpdate(instance, data, groups, now);
    match checked {
      case Err(e) =>
        r := Err(e);
      case Ok(p) =>
        var lesson := Apply(instance, p);
        table.Save(id, lesson);
        r := Ok(lesson);
    }
  }

  /** The same request meets the checks in a different order: absences with neither group nor completion. */
  lemma CheckOrderDiffers(instance: Lesson, subject: SubjectId, date: int, absences: seq<StudentId>,
                          groups: map<GroupId, set<StudentId>>, now: int)
    requires instance.group.None? && !instance.status
    ensures CreateRule(LessonInput(subject, None, None, date, None, Some(absences)), groups, now)
            == Err(AbsencesBeforeCompletion)
    ensures UpdateRule(instance, LessonPatch(None, None, None, None, None, Some(absences)), groups, now)
            == Err(GroupRequiredForAbsences)
  {
  }

  /**
   * A request completing a lesson that has no group, with absences but no
   * date and no group, meets the group check before the date is ever read.
   */
  lemma UpdateWithoutGroupOrDate(instance: Lesson, absences: seq<StudentId>, groups: map<GroupId, set<StudentId>>, now: int)
    requires instance.group.None?
    ensures UpdateRule(instance, LessonPatch(None, None, None, None, Some(true), Some(absences)), groups, now)
            == Err(GroupRequiredForAbsences)
  {
  }

  /** Group {1, 2} and absences [1, 2, 3]: the update stores exactly students 1 and 2. */
  lemma UpdateFiltersToGroup(instance: Lesson, groups: map<GroupId, set<StudentId>>, now: int, date: int)
    requires 1 in groups && groups[1] == {1, 2}
    requires date <= now
    ensures var data := LessonPatch(None, None, Some(Some(1)), Some(date), Some(true), Some([1, 2, 3]));
            UpdateRule(instance, data, groups, now) == Ok(data.(absences := Some([1, 2])))
            && Apply(instance, UpdateRule(instance, data, groups, now).value).absent == {1, 2}
  {
    var data := LessonPatch(None, None, Some(Some(1)), Some(date), Some(true), Some([1, 2, 3]));
    KeepMembersOneTwoThree();
    assert MembersOf(groups, ResolvedGroup(instance, data).value) == {1, 2};
    assert Elements([1, 2]) == {1, 2};
  }

  /** The filter on its own: [1, 2, 3] narrowed to {1, 2}. */
  lemma KeepMembersOneTwoThree()
    ensures KeepMembers([1, 2, 3], {1, 2}) == [1, 2]
  {
    var g: set<StudentId> := {1, 2};
    var s: seq<StudentId> := [1, 2, 3];
    assert s[..2][..1][..0] == [];
    assert KeepMembers(s[..2][..1][..0], g) == [];
    assert KeepMembers(s[..2][..1], g) == [1];
    assert KeepMembers(s[..2], g) == [1, 2];
    assert 3 !in g;
  }

  /**
   * The update does not keep Consistent: on a completed lesson
   * with a group, a request that re-opens it (status false) and supplies a
   * group member as absent is accepted, and stores absences on a lesson
   * that is not completed.
   */
  lemma UpdateCanBreakConsistency(instance: Lesson, groups: map<GroupId, set<StudentId>>, now: int, s: StudentId)
    requires instance.status && instance.group.Some? && s in MembersOf(groups, instance.group.value)
    requires Consistent(instance, groups, now)
    ensures var data := LessonPatch(None, None, None, None, Some(false), Some([s]));
            UpdateRule(instance, data, groups, now).Ok?
            && !Consistent(Apply(instance, UpdateRule(instance, data, groups, now).value), groups, now)
  {
    var data := LessonPatch(None, None, None, None, Some(false), Some([s]));
    assert [s][..0] == [];
    assert KeepMembers([s], MembersOf(groups, instance.group.value)) == [s];
    assert s in Elements([s]);
  }
}
