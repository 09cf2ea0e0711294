/** `DoctorServiceImpl`: looking up, partially updating, removing and
    searching doctors. */
module Doctors {
  import opened Base
  import opened Seqs
  import opened Text
  import opened Directory

  /** `DoctorDTO` as this service fills it. */
  datatype DoctorView = DoctorView(
    id: int,
    userId: int,
    name: Option<string>,
    phone: Option<string>,
    departmentId: Option<int>,
    departmentName: Option<string>,
    title: Option<string>)

  /** `convertToDTO`: the department columns are empty exactly when the
      doctor has no department. */
  function ToView(d: Doctor): (r: DoctorView)
    ensures r.id == d.id && r.userId == d.userId && r.name == d.name && r.phone == d.phone && r.title == d.title
    ensures d.department.None? ==> r.departmentId.None? && r.departmentName.None?
    ensures d.department.Some? ==> r.departmentId == Some(d.department.value.id)
                                   && r.departmentName == d.department.value.name
    ensures r.departmentId.None? <==> d.department.None?
  {
    if d.department.Some? then
      DoctorView(d.id, d.userId, d.name, d.phone, Some(d.department.value.id), d.department.value.name, d.title)
    else DoctorView(d.id, d.userId, d.name, d.phone, None, None, d.title)
  }

  function Views(ds: seq<Doctor>): (r: seq<DoctorView>)
    ensures |r| == |ds|
    ensures forall i :: 0 <= i < |ds| ==> r[i] == ToView(ds[i])
  {
    if |ds| == 0 then [] else [ToView(ds[0])] + Views(ds[1..])
  }

  function FindDoctor(doctors: seq<Doctor>, id: int): (r: Option<nat>)
    ensures r.Some? ==> r.value < |doctors| && doctors[r.value].id == id
    ensures r.Some? ==> forall j :: 0 <= j < r.value ==> doctors[j].id != id
    ensures r.None? <==> forall j :: 0 <= j < |doctors| ==> doctors[j].id != id
  {
    FirstIndex(doctors, (d: Doctor) => d.id == id)
  }

  /** `getDoctorById`. */
  function GetDoctorById(doctors: seq<Doctor>, id: int): (r: Result<DoctorView>)
    ensures r.Err? <==> forall j :: 0 <= j < |doctors| ==> doctors[j].id != id
    ensures r.Err? ==> r.error == DoctorNotFound
    ensures r.Ok? ==> exists j :: 0 <= j < |doctors| && doctors[j].id == id && r.value == ToView(doctors[j])
  {
    match FindDoctor(doctors, id)
    case None => Err(DoctorNotFound)
    case Some(i) => Ok(ToView(doctors[i]))
  }

  /** The fields a caller may supply; `None` means null, "leave as is". */
  datatype DoctorDetails = DoctorDetails(
    name: Option<string>,
    phone: Option<string>,
    department: Option<Department>,
    title: Option<string>)

  /** Overwrite the fields supplied, keep the others. */
  function Merge(d: Doctor, x: DoctorDetails): (r: Doctor)
    ensures r.id == d.id && r.userId == d.userId
    ensures r.name == (if x.name.Some? then x.name else d.name)
    ensures r.phone == (if x.phone.Some? then x.phone else d.phone)
    ensures r.department == (if x.department.Some? then x.department else d.department)
    ensures r.title == (if x.title.Some? then x.title else d.title)
  {
    d.(name := if x.name.Some? then x.name else d.name,
       phone := if x.phone.Some? then x.phone else d.phone,
       department := if x.department.Some? then x.department else d.department,
       title := if x.title.Some? then x.title else d.title)
  }

  /** `updateDoctor`: the partial merge, saved in place. */
  function UpdateDoctor(doctors: seq<Doctor>, id: int, x: DoctorDetails): (r: Result<(seq<Doctor>, Doctor)>)
    ensures r.Err? <==> forall j :: 0 <= j < |doctors| ==> doctors[j].id != id
    ensures r.Err? ==> r.error == DoctorNotFound
    ensures r.Ok? ==> exists i :: 0 <= i < |doctors| && doctors[i].id == id
                                  && r.value.1 == Merge(doctors[i], x) && r.value.0 == doctors[i := r.value.1]
  {
    match FindDoctor(doctors, id)
    case None => Err(DoctorNotFound)
    case Some(i) => Ok((doctors[i := Merge(doctors[i], x)], Merge(doctors[i], x)))
  }

  /** A partial update applied twice has the effect of applying it once, and
      an update supplying nothing changes nothing. */
  lemma UpdateIsIdempotent(doctors: seq<Doctor>, id: int, x: DoctorDetails)
    requires UpdateDoctor(doctors, id, x).Ok?
    ensures var doctors' := UpdateDoctor(doctors, id, x).value.0;
            UpdateDoctor(doctors', id, x) == UpdateDoctor(doctors, id, x)
    ensures UpdateDoctor(doctors, id, DoctorDetails(None, None, None, None)).value.0 == doctors
  {
    var i := FindDoctor(doctors, id).value;
    var doctors' := UpdateDoctor(doctors, id, x).value.0;
    assert doctors' == doctors[i := Merge(doctors[i], x)];
    assert doctors'[i].id == id;
    var k := FindDoctor(doctors', id);
    assert k.Some?;
    assert forall j :: 0 <= j < i ==> doctors'[j] == doctors[j];
    assert k.value == i;
    assert Merge(doctors'[i], x) == doctors'[i];
    assert doctors'[i := Merge(doctors'[i], x)] == doctors';
    assert doctors[i := Merge(doctors[i], DoctorDetails(None, None, None, None))] == doctors;
  }

  /** `deleteDoctor` of this service: only the doctor row goes. */
  function DeleteDoctor(doctors: seq<Doctor>, id: int): (r: Result<seq<Doctor>>)
    ensures r.Err? <==> forall j :: 0 <= j < |doctors| ==> doctors[j].id != id
    ensures r.Err? ==> r.error == DoctorNotFound
    ensures r.Ok? ==> && (forall x :: x in r.value ==> x in doctors && x.id != id)
                      && (forall j :: 0 <= j < |doctors| && doctors[j].id != id ==> doctors[j] in r.value)
                      && IsSubsequence(r.value, doctors)
  {
    match FindDoctor(doctors, id)
    case None => Err(DoctorNotFound)
    case Some(_) =>
      FilterIsSubsequence(doctors, (d: Doctor) => d.id != id);
      Ok(Filter(doctors, (d: Doctor) => d.id != id))
  }

  /** A present text field whose lower-cased form holds `lowered`. */
  predicate FieldMatches(field: Option<string>, lowered: string) {
    field.Some? && Contains(Lower(field.value), lowered)
  }

  /** The search test: name, department name or title holds the keyword,
      ignoring case; absent fields never match. */
  predicate KeywordMatches(d: Doctor, keyword: string) {
    var lowered := Lower(keyword);
    || FieldMatches(d.name, lowered)
    || (d.department.Some? && FieldMatches(d.department.value.name, lowered))
    || FieldMatches(d.title, lowered)
  }

  /** The doctors `searchDoctors` keeps, in `findAll` order. */
  function SearchMatches(doctors: seq<Doctor>, keyword: string): (r: seq<Doctor>)
    ensures forall x :: x in r ==> x in doctors && KeywordMatches(x, keyword)
    ensures forall j :: 0 <= j < |doctors| && KeywordMatches(doctors[j], keyword) ==> doctors[j] in r
    ensures IsSubsequence(r, doctors)
  {
    FilterIsSubsequence(doctors, (d: Doctor) => KeywordMatches(d, keyword));
    Filter(doctors, (d: Doctor) => KeywordMatches(d, keyword))
  }

  /** `searchDoctors`. */
  function SearchDoctors(doctors: seq<Doctor>, keyword: string): (r: seq<DoctorView>)
    ensures |r| <= |doctors|
    ensures forall k :: 0 <= k < |r| ==> exists j :: 0 <= j < |doctors| && KeywordMatches(doctors[j], keyword)
                                                     && r[k] == ToView(doctors[j])
    ensures forall j :: 0 <= j < |doctors| && KeywordMatches(doctors[j], keyword) ==> ToView(doctors[j]) in r
  {
    var m := SearchMatches(doctors, keyword);
    var r := Views(m);
    assert forall k :: 0 <= k < |m| ==> m[k] in m;
    assert forall k :: 0 <= k < |r| ==> r[k] == ToView(m[k]);
    assert forall x :: x in m ==> ToView(x) in r by {
      forall x | x in m ensures ToView(x) in r {
        var k :| 0 <= k < |m| && m[k] == x;
        assert r[k] == ToView(x);
      }
    }
    r
  }

  /** An empty keyword keeps exactly the doctors with some searchable field
      present. */
  lemma EmptyKeywordKeepsNamedDoctors(d: Doctor)
    ensures KeywordMatches(d, "") <==>
              d.name.Some? || (d.department.Some? && d.department.value.name.Some?) || d.title.Some?
  {
    assert Lower("") == "";
    if d.name.Some? { ContainsEmpty(Lower(d.name.value)); }
    if d.department.Some? && d.department.value.name.Some? { ContainsEmpty(Lower(d.department.value.name.value)); }
    if d.title.Some? { ContainsEmpty(Lower(d.title.value)); }
  }
}
