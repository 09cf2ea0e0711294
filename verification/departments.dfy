/** `DepartmentServiceImpl`: departments with case-insensitively unique
    names. */
module Departments {
  import opened Base
  import opened Seqs
  import opened Text
  import opened Directory


  /** `existsByNameIgnoreCase`. */
  predicate NameTaken(depts: seq<Department>, name: string) {
    exists i :: 0 <= i < |depts| && depts[i].name.Some? && EqualsIgnoreCase(depts[i].name.value, name)
  }

  /** No two departments have names equal up to case. */
  predicate UniqueNames(depts: seq<Department>) {
    forall i, j :: 0 <= i < |depts| && 0 <= j < |depts| && i != j && depts[i].name.Some? && depts[j].name.Some?
      ==> !EqualsIgnoreCase(depts[i].name.value, depts[j].name.value)
  }

  function FindDepartment(depts: seq<Department>, id: int): (r: Option<nat>)
    ensures r.Some? ==> r.value < |depts| && depts[r.value].id == id
    ensures r.None? <==> forall j :: 0 <= j < |depts| ==> depts[j].id != id
  {
    FirstIndex(depts, (d: Department) => d.id == id)
  }

  /** `getDepartmentById`. */
  function GetDepartmentById(depts: seq<Department>, id: int): (r: Result<Department>)
    ensures r.Err? <==> forall j :: 0 <= j < |depts| ==> depts[j].id != id
    ensures r.Err? ==> r.error == DepartmentNotFound
    ensures r.Ok? ==> r.value in depts && r.value.id == id
  {
    match FindDepartment(depts, id)
    case None => Err(DepartmentNotFound)
    case Some(i) => Ok(depts[i])
  }

  /** `createDepartment`: the duplicate check looks at the name as given,
      the stored name is the trimmed one. */
  function CreateDepartment(depts: seq<Department>, name: string, description: Option<string>)
    : (r: Result<(seq<Department>, Department)>)
    ensures r.Err? <==> NameTaken(depts, name)
    ensures r.Err? ==> r.error == DepartmentNameExists
    ensures r.Ok? ==> var (depts', d) := r.value;
      && depts' == depts + [d]
      && d.name == Some(Trim(name)) && d.description == description
      && forall i :: 0 <= i < |depts| ==> depts[i].id != d.id
  {
    if NameTaken(depts, name) then Err(DepartmentNameExists)
    else
      var d := Department(FreshId(Map(depts, (x: Department) => x.id)), Some(Trim(name)), description);
      Ok((depts + [d], d))
  }

  /** The rename `updateDepartment` refuses: a trimmed name that is not the
      current one up to case and is taken. */
  predicate RenameClashes(d: Department, depts: seq<Department>, newName: string) {
    !(d.name.Some? && EqualsIgnoreCase(newName, d.name.value)) && NameTaken(depts, newName)
  }

  /** `updateDepartment`: rename to the trimmed name unless that clashes
      with another department, and replace the description when one is
      given. */
  function UpdateDepartment(depts: seq<Department>, id: int, name: Option<string>, description: Option<string>)
    : (r: Result<(seq<Department>, Department)>)
    ensures FindDepartment(depts, id).None? ==> r == Err(DepartmentNotFound)
    ensures FindDepartment(depts, id).Some? ==>
              var i := FindDepartment(depts, id).value;
              var d := depts[i];
              && (r.Err? <==> name.Some? && RenameClashes(d, depts, Trim(name.value)))
              && (r.Err? ==> r.error == DepartmentNameExists)
              && (r.Ok? ==> var (depts', d') := r.value;
                    && depts' == depts[i := d'] && d'.id == d.id
                    && d'.name == (if name.Some? then Some(Trim(name.value)) else d.name)
                    && d'.description == (if description.Some? then description else d.description))
  {
    match FindDepartment(depts, id)
    case None => Err(DepartmentNotFound)
    case Some(i) =>
      var d := depts[i];
      if name.Some? && RenameClashes(d, depts, Trim(name.value)) then Err(DepartmentNameExists)
      else
        var d' := d.(name := if name.Some? then Some(Trim(name.value)) else d.name,
                     description := if description.Some? then description else d.description);
        Ok((depts[i := d'], d'))
  }

  /** `deleteDepartment`. */
  function DeleteDepartment(depts: seq<Department>, id: int): (r: Result<seq<Department>>)
    ensures r.Err? <==> forall j :: 0 <= j < |depts| ==> depts[j].id != id
    ensures r.Err? ==> r.error == DepartmentNotFound
    ensures r.Ok? ==> && (forall x :: x in r.value ==> x in depts && x.id != id)
                      && (forall j :: 0 <= j < |depts| && depts[j].id != id ==> depts[j] in r.value)
                      && IsSubsequence(r.value, depts)
  {
    match FindDepartment(depts, id)
    case None => Err(DepartmentNotFound)
    case Some(_) =>
      FilterIsSubsequence(depts, (d: Department) => d.id != id);
      Ok(Filter(depts, (d: Department) => d.id != id))
  }

  /** Case-insensitive equality is symmetric and transitive. */
  lemma EqualsIgnoreCaseEquivalence(a: string, b: string, c: string)
    ensures EqualsIgnoreCase(a, b) ==> EqualsIgnoreCase(b, a)
    ensures EqualsIgnoreCase(a, b) && EqualsIgnoreCase(b, c) ==> EqualsIgnoreCase(a, c)
  {
    EqualsIgnoreCaseIsLowerEquality(a, b);
    EqualsIgnoreCaseIsLowerEquality(b, a);
    EqualsIgnoreCaseIsLowerEquality(b, c);
    EqualsIgnoreCaseIsLowerEquality(a, c);
  }

  /** Updating keeps department names unique up to case. */
  lemma UpdateKeepsNamesUnique(depts: seq<Department>, id: int, name: Option<string>, description: Option<string>)
    requires UniqueNames(depts)
    requires UpdateDepartment(depts, id, name, description).Ok?
    ensures UniqueNames(UpdateDepartment(depts, id, name, description).value.0)
  {
    var i := FindDepartment(depts, id).value;
    var d := depts[i];
    var (depts', d') := UpdateDepartment(depts, id, name, description).value;
    if name.Some? {
      var n := Trim(name.value);
      forall j | 0 <= j < |depts'| && j != i && depts'[j].name.Some?
        ensures !EqualsIgnoreCase(n, depts'[j].name.value) && !EqualsIgnoreCase(depts'[j].name.value, n)
      {
        var m := depts[j].name.value;
        EqualsIgnoreCaseEquivalence(m, n, n);
        EqualsIgnoreCaseEquivalence(n, m, m);
        if EqualsIgnoreCase(m, n) {
          assert NameTaken(depts, n);
          assert d.name.Some? && EqualsIgnoreCase(n, d.name.value);
          EqualsIgnoreCaseEquivalence(m, n, d.name.value);
          assert false;
        }
      }
    }
  }

  /** Creating with a name that has nothing to trim and is not taken
      succeeds and keeps names unique up to case. */
  lemma CreateKeepsTrimmedNamesUnique(depts: seq<Department>, name: string, description: Option<string>)
    requires UniqueNames(depts)
    requires |name| > 0 ==> !IsTrimmable(name[0]) && !IsTrimmable(name[|name| - 1])
    requires !NameTaken(depts, name)
    ensures CreateDepartment(depts, name, description).Ok?
    ensures UniqueNames(CreateDepartment(depts, name, description).value.0)
  {
    TrimFixed(name);
    var (depts', d) := CreateDepartment(depts, name, description).value;
    forall j | 0 <= j < |depts| && depts[j].name.Some?
      ensures !EqualsIgnoreCase(name, depts[j].name.value) && !EqualsIgnoreCase(depts[j].name.value, name)
    {
      EqualsIgnoreCaseEquivalence(name, depts[j].name.value, name);
    }
    assert depts'[|depts|] == d;
  }

  /** The duplicate check of creation looks at the untrimmed name, so a
      padded name slips past it: " a" is admitted beside "a". */
  lemma PaddedNameSlipsPast()
    ensures var depts := [Department(1, Some("a"), None)];
            && UniqueNames(depts)
            && CreateDepartment(depts, " a", None).Ok?
            && !UniqueNames(CreateDepartment(depts, " a", None).value.0)
  {
    var depts := [Department(1, Some("a"), None)];
    assert |depts[0].name.value| != |" a"|;
    assert !NameTaken(depts, " a");
    TrimPadded();
    var depts' := CreateDepartment(depts, " a", None).value.0;
    assert depts'[0].name.value == "a" && depts'[1].name.value == "a";
    assert EqualsIgnoreCase(depts'[0].name.value, depts'[1].name.value);
  }

  lemma TrimPadded()
    ensures Trim(" a") == "a"
  {
    var s := " a";
    assert IsTrimmable(s[0]) && !IsTrimmable(s[1]);
    assert TrimStart(s) == TrimStart(s[1..]);
    assert s[1..] == "a";
    TrimStartFixed("a");
    TrimEndFixed("a");
  }
}
