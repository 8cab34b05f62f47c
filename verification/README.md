# School journal write rules, modelled in Dafny

The service keeps a journal for a school. It stores study subjects,
teachers, students, student groups and lessons. A lesson belongs to a
subject and may have a teacher and a student group. It has a date and a
completion status, and it records which students were absent. This project
models the three parts of the service that carry decision logic and proves
what they guarantee.

1. **Lesson writes** (`lesson_serializers.dfy`, module `LessonSerializers`).
   Creating or updating a lesson applies three checks:
   - absences may only be recorded on a completed lesson;
   - absences need a student group;
   - a lesson cannot be marked completed before its date.

   The absence list is silently narrowed to the members of the lesson's
   group. The create and update paths run the checks in different orders,
   and the update path combines stored and incoming values. Each path is a
   specification function (`CreateRule`, `UpdateRule`) and a method that
   rebuilds the absence list with a loop, as the service does
   (`Validate`, `CheckUpdate`, `FilterAbsences`). `Create` and `Update`
   then write the lesson table.
2. **Student-group membership** (`people_serializers.dfy`, module
   `PeopleSerializers`). A group is created or updated from a list of
   student descriptors. Each descriptor names a student by full name; a
   known name is reused and an unknown one creates a student. An update
   with a student list clears the membership first; an update without one
   leaves it alone. The class `Registry` holds the student table and the
   group titles and links, and its methods change them in place.
3. **Delete policies of the lesson table** (`lesson_models.dfy`, module
   `LessonModels`). Deleting a subject deletes its lessons. Deleting a
   teacher or a group only clears the reference in the lessons.

`common.dfy` holds the identifier types and the `Option`/`Result` wrappers.

Dates are integer timestamps, and the current time is a parameter `now`.
A group's members are given as a map from group id to a set of student ids.
A rejected write is an `Err` holding the field and the message the service
returns.

A lesson row is `Consistent` when three conditions hold: it has absences
only if it is completed and has a group; its absences are members of that
group; and it is completed only once its date has come. The create path
establishes this: `Create` ensures that the stored row is `Consistent`.
The update path does not. It checks the stored status *or* the incoming
one, so a request that re-opens a completed lesson while supplying
absences is accepted. `UpdateCanBreakConsistency` exhibits such a
request.

## Model

| member | source | states |
|---|---|---|
| LessonModels.LessonTable.DeleteSubject | lessons/models.py:22-23 | the lessons of the deleted subject are removed; every other lesson stays, unchanged; no remaining lesson refers to the subject |
| LessonModels.LessonTable.DeleteTeacher | lessons/models.py:24 | every lesson is kept; in the lessons that referred to the teacher the reference becomes null, and nothing else in them changes; the other lessons are unchanged |
| LessonModels.LessonTable.DeleteGroup | lessons/models.py:25-26 | every lesson is kept; in the lessons that referred to the group the reference becomes null, and nothing else in them changes; the other lessons are unchanged |
| LessonModels.LessonTable.Insert | lessons/models.py:17-29 | a new lesson is stored under a key not used before, and no other row changes |
| LessonModels.LessonTable.Save | lessons/serializers.py:118 | the stored lesson under an existing key is replaced, and no other row changes |
| LessonSerializers.KeepMembersContents | lessons/serializers.py:70-74 | the filtered absence list holds exactly the group members among the input: membership both ways, and each member as often as the input has it |
| LessonSerializers.KeepMembersIsSubsequence | lessons/serializers.py:72-74 | the filter only deletes entries: its result is a subsequence of the input, so input order is kept |
| LessonSerializers.FilterAbsences | lessons/serializers.py:70-74 | the append loop that rebuilds the absence list yields exactly the group members among the input, in input order |
| LessonSerializers.CreateRule | lessons/serializers.py:58-81 | absences with a missing or false status give the status error whether or not a group is given; absences on a completed lesson without a group give the group error; status true with a future date gives the date error; a false status never meets the date check; acceptance exactly when no check fires; accepted absences are the group members among the input, in order; every other field passes through; a request with no absences and no status comes back unchanged |
| LessonSerializers.Validate | lessons/serializers.py:58-81 | the create serializer's validation, which pops and rebuilds the absence list, gives exactly the create rule's outcome |
| LessonSerializers.UpdateRule | lessons/serializers.py:92-116 | the group error fires exactly when absences come with neither a stored nor an incoming group; the status error fires exactly when a group resolves but neither the stored nor the incoming status is true; the date error and acceptance are characterised both ways; filtering uses the incoming group if one is given, else the stored one |
| LessonSerializers.CheckUpdate | lessons/serializers.py:92-116 | the checking part of the update serializer, with its rebuild loop, gives exactly the update rule's outcome |
| LessonSerializers.Create | lessons/serializers.py:58-81 | a rejected create stores nothing; an accepted one stores one new lesson whose status is true only when the request said so (false by default); the stored row is `Consistent`, and its absences come from the input |
| LessonSerializers.Update | lessons/serializers.py:92-119 | a rejected update leaves the table, the lesson's absences included, unchanged; an accepted one overwrites exactly the fields the request carries; stored absences are drawn from the input and from the resolved group; without an absence list the stored absences are kept |
| LessonSerializers.UpdateWithoutGroupOrDate | lessons/serializers.py:93-97 | a request that completes a lesson without a group, supplying absences but no date and no group, gets the group error before the date is read |
| LessonSerializers.CheckOrderDiffers | lessons/serializers.py:60-101 | absences with neither group nor completion: create answers with the status error, update with the group error |
| LessonSerializers.UpdateFiltersToGroup | lessons/serializers.py:103-111 | an update naming group {1, 2} with absences [1, 2, 3] is accepted with absences [1, 2] and stores {1, 2} |
| LessonSerializers.KeepMembersOneTwoThree | lessons/serializers.py:108-111 | the filter narrows [1, 2, 3] to [1, 2] for group {1, 2} |
| LessonSerializers.UpdateCanBreakConsistency | lessons/serializers.py:98-118 | an update that sets the status to false on a completed lesson and supplies absences is accepted, and the stored lesson is not `Consistent` |
| PeopleSerializers.Registry.GetOrCreate | people/serializers.py:48-50 | the returned student has the given name; a known name leaves the student table unchanged; an unknown name adds exactly one student with that name |
| PeopleSerializers.Registry.AddStudent | people/serializers.py:48-51 | the student is found or created, and then linked to the group |
| PeopleSerializers.Registry.Enrol | people/serializers.py:47-51 | after the loop the group's links are the previous ones plus exactly the students the names pick out; no student is removed or renamed; the table gains only students with names it did not know; with every name known, the table is unchanged |
| PeopleSerializers.Registry.AddGroup | people/serializers.py:45 | a new group with the given title and no members is stored under a key not used before |
| PeopleSerializers.Registry.CreateGroup | people/serializers.py:43-54 | the new group's members are exactly the students its descriptor names pick out, one per distinct name; without a students key the group is empty and the student table unchanged |
| PeopleSerializers.Registry.ReplaceMembers | people/serializers.py:67-74 | membership is replaced exactly by the named students; former members not named are no longer members; no student is removed or renamed |
| PeopleSerializers.Registry.UpdateGroup | people/serializers.py:65-76 | with a students key membership is replaced exactly and former members not named are dropped; without one, membership and students are unchanged; the title changes only when given |
| PeopleSerializers.NamedIdsOnePerName | people/serializers.py:47-51 | with unique full names and every name known, the named students number exactly the distinct names |
| PeopleSerializers.RegrowNothing | people/serializers.py:70-74 | resolving the same names a second time adds no student, so repeating a create or update leaves the student table as it is |

## Left out

- Routing, views, URL configuration and the lesson filter are framework plumbing and are not modelled. lessons/views.py refers to a `LessonCreateUpdateSerializer` that lessons/serializers.py does not define; that dispatch is not modelled, and the create and update rules are modelled directly.
- The read-only serializers only shape output (nested students, slug fields) and are not modelled.
- Date parsing and formatting with the `%d/%m/%Y %H:%M:%S` format are done by the framework. Dates are integers, and the clock is the parameter `now`.
- Field-type validation and the existence checks for referenced subjects, teachers, groups and students happen in the framework before the modelled code runs. Ids are taken as valid.
- The group-membership query is replaced by a lookup in the map of group members. A group id with no entry has no members.
- LessonSerializers.UpdateRule, LessonSerializers.CheckUpdate, LessonSerializers.Update: once the absence checks pass, the update reads the request's date whenever the status is true. A request with status true and no date then fails with an unhandled key error. Before the date is read, the only check that can stop such a request is the group check. So these members require either a date or a request that the group check rejects. They do not model the key error itself.
- PeopleSerializers.Registry.GetOrCreate: full names are not unique in the student table, and a lookup that matches several students is framework behaviour. The model keeps names unique (`Registry.Valid`) and picks the one match.
- PeopleSerializers.Registry.UpdateGroup: the update runs inside a database transaction. The model has no failure point inside it, so the all-or-nothing behaviour is not modelled. Concurrency is not modelled either.
- The subject, teacher and group records themselves are not modelled, apart from the ids that lessons refer to. Their length and non-blank constraints are not modelled either.
- A teacher or group sent as an explicit null on create is stored as no reference, as when the key is missing; the two are not distinguished.
