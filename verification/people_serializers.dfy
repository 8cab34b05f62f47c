/**
 * Student-group membership writes (people/serializers.py): a group is
 * created or updated from a list of student descriptors, each naming a
 * student by full name; a known name is reused, an unknown one creates a
 * student, and the student is added to the group.
 */
module PeopleSerializers {
  import opened Common

  /** The students of `table` whose full name is one of `names`. */
  function NamedIds(table: map<StudentId, string>, names: seq<string>): set<StudentId>
  {
    set id | id in table && table[id] in names
  }

  /** No two students share a full name, so a name finds at most one student. */
  predicate UniqueNames(table: map<StudentId, string>)
  {
    forall a, b :: a in table && b in table && table[a] == table[b] ==> a == b
  }

  /** Every student of `before` is still in `after`, under the same name. */
  predicate Extends(before: map<StudentId, string>, after: map<StudentId, string>)
  {
    forall id :: id in before ==> id in after && after[id] == before[id]
  }

  /**
   * The student table `after` is `before` with the names of `names` resolved:
   * no student removed or renamed, every name now known, and each added
   * student carrying a name `before` did not know.
   */
  predicate Grown(before: map<StudentId, string>, after: map<StudentId, string>, names: seq<string>)
  {
    && Extends(before, after)
    && after.Values == before.Values + Elements(names)
    && (forall k :: k in after && k !in before ==> after[k] in names && after[k] !in before.Values)
  }

  /** The descriptor names of a request; a request without the students key has none. */
  function DescriptorNames(students: Option<seq<string>>): seq<string>
  {
    if students.Some? then students.value else []
  }

  /**
   * With unique names and every name known, the students named by a list
   * are one per distinct name.
   */
  lemma {:induction false} NamedIdsOnePerName(table: map<StudentId, string>, names: seq<string>)
    requires UniqueNames(table)
    requires Elements(names) <= table.Values
    ensures |NamedIds(table, names)| == |Elements(names)|
    decreases |names|
  {
    if names == [] {
      assert NamedIds(table, names) == {};
      assert Elements(names) == {};
    } else {
      var init := names[..|names| - 1];
      var last := names[|names| - 1];
      assert names == init + [last];
      assert Elements(names) == Elements(init) + {last};
      assert Elements(init) <= table.Values;
      NamedIdsOnePerName(table, init);
      assert last in table.Values;
      var k :| k in table && table[k] == last;
      assert NamedIds(table, names) == NamedIds(table, init) + {k};
      if last in init {
        assert k in NamedIds(table, init);
        assert NamedIds(table, names) == NamedIds(table, init);
        assert Elements(names) == Elements(init);
      } else {
        assert k !in NamedIds(table, init);
        assert last !in Elements(init);
      }
    }
  }

  /**
   * Resolving the same names a second time adds no student: every name is
   * already known, so a repeated create or update leaves the table as it is.
   */
  lemma RegrowNothing(start: map<StudentId, string>, once: map<StudentId, string>, twice: map<StudentId, string>, names: seq<string>)
    requires Grown(start, once, names)
    requires Grown(once, twice, names)
    ensures twice == once
  {
  }

  /** How a get-or-create changes the table: nothing when the name is known, one new row otherwise. */
  predicate Resolved(before: map<StudentId, string>, after: map<StudentId, string>, name: string, id: StudentId)
  {
    && id in after && after[id] == name
    && (name in before.Values ==> after == before)
    && (name !in before.Values ==> id !in before && after == before[id := name])
  }

  /** One turn of the enrolment loop keeps every earlier student and gains exactly the new name. */
  lemma StepValues(start: map<StudentId, string>, before: map<StudentId, string>, after: map<StudentId, string>,
                   done: seq<string>, name: string, id: StudentId)
    requires Extends(start, before) && before.Values == start.Values + Elements(done)
    requires Resolved(before, after, name, id)
    ensures Extends(start, after)
    ensures after.Values == start.Values + Elements(done + [name])
  {
    assert Elements(done + [name]) == Elements(done) + {name};
    if name !in before.Values {
      forall v | v in after.Values ensures v in before.Values + {name} {
        var k :| k in after && after[k] == v;
        if k != id {
          assert k in before && before[k] == v;
        }
      }
      forall v | v in before.Values ensures v in after.Values {
        var k :| k in before && before[k] == v;
        assert k in after && after[k] == v;
      }
    }
  }

  /** One turn of the enrolment loop extends the growth of the table by the name it resolves. */
  lemma StepGrown(start: map<StudentId, string>, before: map<StudentId, string>, after: map<StudentId, string>,
                  done: seq<string>, name: string, id: StudentId)
    requires Grown(start, before, done)
    requires Resolved(before, after, name, id)
    ensures Grown(start, after, done + [name])
  {
    StepValues(start, before, after, done, name, id);
    StepNew(start, before, after, done, name, id);
  }

  /** The rows one turn of the enrolment loop adds carry a descriptor name the table did not know. */
  lemma StepNew(start: map<StudentId, string>, before: map<StudentId, string>, after: map<StudentId, string>,
                done: seq<string>, name: string, id: StudentId)
    requires start.Values <= before.Values
    requires forall k :: k in before && k !in start ==> before[k] in done && before[k] !in start.Values
    requires Resolved(before, after, name, id)
    ensures forall k :: k in after && k !in start ==> after[k] in done + [name] && after[k] !in start.Values
  {
  }

  /** One turn of the enrolment loop adds exactly the resolved student to those the names so far pick out. */
  lemma StepNamed(before: map<StudentId, string>, after: map<StudentId, string>,
                  done: seq<string>, name: string, id: StudentId)
    requires UniqueNames(after)
    requires Resolved(before, after, name, id)
    ensures NamedIds(after, done + [name]) == NamedIds(before, done) + {id}
  {
    forall k | k in after && after[k] in done + [name]
      ensures k in NamedIds(before, done) + {id}
    {
      if after[k] != name {
        assert after[k] in done;
      }
    }
  }

  /** The links after one turn of the enrolment loop: the earlier ones and the resolved student. */
  lemma StepLinked(initial: set<StudentId>, linked: set<StudentId>, before: map<StudentId, string>, after: map<StudentId, string>,
                   done: seq<string>, name: string, id: StudentId)
    requires UniqueNames(after)
    requires Resolved(before, after, name, id)
    requires linked == initial + NamedIds(before, done)
    ensures linked + {id} == initial + NamedIds(after, done + [name])
  {
    StepNamed(before, after, done, name, id);
  }

  /** A prefix one longer is the prefix with the next entry appended. */
  lemma PrefixStep<T>(s: seq<T>, i: nat)
    requires i < |s|
    ensures s[..i + 1] == s[..i] + [s[i]]
  {
  }

  /** The prefix as long as the sequence is the whole sequence. */
  lemma PrefixWhole<T>(s: seq<T>)
    ensures s[..|s|] == s
  {
  }

  /** Writing a key twice keeps the second value. */
  lemma ReplaceTwice<K, V>(m: map<K, V>, k: K, first: V, second: V)
    ensures m[k := first][k := second] == m[k := second]
  {
  }

  /** Writing back the value a key already has changes nothing. */
  lemma ReplaceSame<K, V>(m: map<K, V>, k: K)
    requires k in m
    ensures m[k := m[k]] == m
  {
  }

  /** The student table and the group table with its titles and membership links. */
  class Registry {
    var students: map<StudentId, string>
    var nextStudent: StudentId
    var titles: map<GroupId, string>
    var members: map<GroupId, set<StudentId>>
    var nextGroup: GroupId

    ghost predicate Valid()
      reads this
    {
      && (forall id :: id in students ==> id < nextStudent)
      && (forall g :: g in titles ==> g < nextGroup)
      && titles.Keys == members.Keys
      && (forall g :: g in members ==> members[g] <= students.Keys)
      && UniqueNames(students)
    }

    constructor ()
      ensures Valid() && students == map[] && titles == map[] && members == map[]
    {
      students, nextStudent := map[], 0;
      titles, members, nextGroup := map[], map[], 0;
    }

    /** Finds the student with this full name, or creates one. */
    method GetOrCreate(name: string) returns (id: StudentId)
      requires Valid()
      modifies this`students, this`nextStudent
      ensures Valid()
      ensures id in students && students[id] == name
      ensures name in old(students).Values ==> students == old(students) && nextStudent == old(nextStudent)
      ensures name !in old(students).Values ==> id !in old(students) && students == old(students)[id := name]
    {
      if exists k :: k in students && students[k] == name {
        id :| id in students && students[id] == name;
      } else {
        id := nextStudent;
        students := students[id := name];
        nextStudent := nextStudent + 1;
      }
    }

    /**
     * The loop shared by create and update: resolve each descriptor name
     * and add that student to `group`.
     */
    method Enrol(group: GroupId, names: seq<string>)
      requires Valid() && group in members
      modifies this`students, this`nextStudent, this`members
      ensures Valid()
      ensures members == old(members)[group := old(members[group]) + NamedIds(students, names)]
      // no student is removed or renamed; the table gains exactly the names it did not know
      ensures Grown(old(students), students, names)
      ensures Elements(names) <= old(students).Values ==> students == old(students)
    {
      var i := 0;
      assert NamedIds(students, names[..0]) == {};
      assert Elements(names[..0]) == {};
      assert old(members[group]) + {} == old(members[group]);
      ReplaceSame(members, group);
      while i < |names|
        invariant 0 <= i <= |names|
        invariant Valid() && group in members
        invariant members == old(members)[group := old(members[group]) + NamedIds(students, names[..i])]
        invariant Grown(old(students), students, names[..i])
        invariant Elements(names) <= old(students).Values ==> students == old(students)
      {
        ghost var before, linked := students, members[group];
        var id := AddStudent(group, names[i]);
        PrefixStep(names, i);
        StepGrown(old(students), before, students, names[..i], names[i], id);
        StepLinked(old(members[group]), linked, before, students, names[..i], names[i], id);
        ReplaceTwice(old(members), group, linked, linked + {id});
        i := i + 1;
      }
      PrefixWhole(names);
    }

    /** One turn of the loop: find or create the student named `name` and link it to `group`. */
    method AddStudent(group: GroupId, name: string) returns (id: StudentId)
      requires Valid() && group in members
      modifies this`students, this`nextStudent, this`members
      ensures Valid()
      ensures Resolved(old(students), students, name, id)
      ensures members == old(members)[group := old(members[group]) + {id}]
    {
      id := GetOrCreate(name);
      members := members[group := members[group] + {id}];
    }

    /** Creates a group with this title and the students the descriptors name. */
    method CreateGroup(title: string, names: Option<seq<string>>) returns (group: GroupId)
      requires Valid()
      modifies this
      ensures Valid()
      ensures group !in old(members) && titles == old(titles)[group := title]
      ensures members == old(members)[group := NamedIds(students, DescriptorNames(names))]
      ensures |members[group]| == |Elements(DescriptorNames(names))|
      ensures Grown(old(students), students, DescriptorNames(names))
      ensures names.None? ==> members[group] == {} && students == old(students)
    {
      group := AddGroup(title);
      Enrol(group, DescriptorNames(names));
      ghost var named := NamedIds(students, DescriptorNames(names));
      assert {} + named == named;
      ReplaceTwice(old(members), group, {}, named);
      NamedIdsOnePerName(students, DescriptorNames(names));
    }

    /** Stores a new group row with no members under a key never used before. */
    method AddGroup(title: string) returns (group: GroupId)
      requires Valid()
      modifies this`titles, this`members, this`nextGroup
      ensures Valid()
      ensures group !in old(members)
      ensures titles == old(titles)[group := title] && members == old(members)[group := {}]
    {
      group := nextGroup;
      titles := titles[group := title];
      members := members[group := {}];
      nextGroup := nextGroup + 1;
    }

    /**
     * Updates a group. With a student list, membership is cleared and
     * rebuilt from it; without one, membership is left alone. The title
     * changes when one is given.
     */
    method UpdateGroup(group: GroupId, title: Option<string>, names: Option<seq<string>>)
      requires Valid() && group in members
      modifies this
      ensures Valid()
      ensures nextGroup == old(nextGroup)
      ensures titles == old(titles)[group := if title.Some? then title.value else old(titles[group])]
      ensures names.Some? ==> members == old(members)[group := NamedIds(students, names.value)]
      ensures names.Some? ==> forall s :: s in old(members[group]) && old(students)[s] !in names.value ==> s !in members[group]
      ensures names.None? ==> members == old(members) && students == old(students)
      // clearing removes links only: no student is deleted or renamed
      ensures Grown(old(students), students, DescriptorNames(names))
    {
      if names.Some? {
        ReplaceMembers(group, names.value);
      } else {
        assert Grown(students, students, []);
      }
      if title.Some? {
        titles := titles[group := title.value];
      }
    }

    /** Clears the membership of `group` and rebuilds it from the descriptor names. */
    method ReplaceMembers(group: GroupId, names: seq<string>)
      requires Valid() && group in members
      modifies this`students, this`nextStudent, this`members
      ensures Valid()
      ensures members == old(members)[group := NamedIds(students, names)]
      ensures forall s :: s in old(members[group]) && old(students)[s] !in names ==> s !in members[group]
      ensures Grown(old(students), students, names)
    {
      members := members[group := {}];
      Enrol(group, names);
      ghost var named := NamedIds(students, names);
      assert {} + named == named;
      ReplaceTwice(old(members), group, {}, named);
    }
  }
}
