/**
 * The stored lessons and the delete policies of their foreign keys
 * (lessons/models.py, class Lesson): a subject is mandatory and deleting
 * it deletes its lessons; teacher and student group are optional and
 * deleting either only clears the reference.
 */
module LessonModels {
  import opened Common

  /** One row of the lesson table. The subject is mandatory, teacher and group may be null. */
  datatype Lesson = Lesson(
    subject: SubjectId,
    teacher: Option<TeacherId>,
    group: Option<GroupId>,
    date: int,
    status: bool,
    absent: set<StudentId>)

  /** The lesson table: rows by primary key, and the next key to hand out. */
  class LessonTable {
    var rows: map<LessonId, Lesson>
    var nextId: LessonId

    ghost predicate Valid()
      reads this
    {
      forall id :: id in rows ==> id < nextId
    }

    constructor ()
      ensures Valid() && rows == map[]
    {
      rows := map[];
      nextId := 0;
    }

    /** Stores a new row under a key never used before. */
    method Insert(lesson: Lesson) returns (id: LessonId)
      requires Valid()
      modifies this
      ensures Valid()
      ensures id !in old(rows) && rows == old(rows)[id := lesson]
    {
      id := nextId;
      rows := rows[id := lesson];
      nextId := nextId + 1;
    }

    /** Overwrites an existing row (the save at the end of an update). */
    method Save(id: LessonId, lesson: Lesson)
      requires Valid() && id in rows
      modifies this`rows
      ensures Valid()
      ensures rows == old(rows)[id := lesson]
    {
      rows := rows[id := lesson];
    }

    /** Deleting a study subject cascades: its lessons go, every other lesson stays as it was. */
    method DeleteSubject(subject: SubjectId)
      requires Valid()
      modifies this`rows
      ensures Valid()
      ensures forall id :: id in old(rows) && old(rows)[id].subject == subject ==> id !in rows
      ensures forall id :: id in old(rows) && old(rows)[id].subject != subject ==> id in rows && rows[id] == old(rows)[id]
      ensures rows.Keys <= old(rows).Keys
      ensures forall id :: id in rows ==> rows[id].subject != subject
    {
      rows := map id | id in rows && rows[id].subject != subject :: rows[id];
    }

    /** Deleting a teacher keeps every lesson and nulls the references to that teacher only. */
    method DeleteTeacher(teacher: TeacherId)
      requires Valid()
      modifies this`rows
      ensures Valid()
      ensures rows.Keys == old(rows).Keys
      ensures forall id :: id in rows ==> rows[id].teacher != Some(teacher)
      ensures forall id :: id in rows && old(rows)[id].teacher == Some(teacher) ==> rows[id].teacher == None
      ensures forall id :: id in rows ==> rows[id].(teacher := None) == old(rows)[id].(teacher := None)
      ensures forall id :: id in rows && old(rows)[id].teacher != Some(teacher) ==> rows[id] == old(rows)[id]
    {
      rows := map id | id in rows ::
        if rows[id].teacher == Some(teacher) then rows[id].(teacher := None) else rows[id];
    }

    /** Deleting a student group keeps every lesson and nulls the references to that group only. */
    method DeleteGroup(group: GroupId)
      requires Valid()
      modifies this`rows
      ensures Valid()
      ensures rows.Keys == old(rows).Keys
      ensures forall id :: id in rows ==> rows[id].group != Some(group)
      ensures forall id :: id in rows && old(rows)[id].group == Some(group) ==> rows[id].group == None
      ensures forall id :: id in rows ==> rows[id].(group := None) == old(rows)[id].(group := None)
      ensures forall id :: id in rows && old(rows)[id].group != Some(group) ==> rows[id] == old(rows)[id]
    {
      rows := map id | id in rows ::
        if rows[id].group == Some(group) then rows[id].(group := None) else rows[id];
    }
  }
}
