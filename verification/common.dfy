/** Identifiers and the small wrapper types shared by the lesson and people models. */
module Common {

  // Primary keys of the stored records; the database hands them out.
  type StudentId = nat
  type TeacherId = nat
  type GroupId = nat
  type SubjectId = nat
  type LessonId = nat

  /** A key that may be missing from a request, or a nullable reference. */
  datatype Option<+T> = None | Some(value: T)

  /** Either an accepted value or the error a write is rejected with. */
  datatype Result<+T, +E> = Ok(value: T) | Err(error: E)

  /** The elements of a sequence, as a set (how a list is stored in a many-to-many relation). */
  function Elements<T>(s: seq<T>): set<T>
  {
    set x | x in s
  }
}
