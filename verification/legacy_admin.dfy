/** The older `AdminServiceImpl` under `src/`: the same request decisions
    and doctor removal over an older store whose doctors carry their
    department as plain text, plus the administrator's doctor update. Its
    schedule service is not part of this model, so block creation is a
    parameter. */
module LegacyAdmin {
  import opened Base
  import opened Seqs
  import opened AdjustmentRequests
  import opened Directory
  import opened ScheduleService
  import opened AdjustmentWorkflow

  datatype LegacyDoctor = LegacyDoctor(
    id: int,
    userId: int,
    name: Option<string>,
    phone: Option<string>,
    department: Option<string>,
    title: Option<string>)

  datatype LegacyStore = LegacyStore(
    blocks: seq<Block>,
    requests: seq<AdjustmentRequest>,
    doctors: seq<LegacyDoctor>,
    users: seq<User>)

  /** `approveAdjustmentRequest`. */
  function ApproveAdjustmentRequest(s: LegacyStore, id: int, response: Option<string>, now: int, create: BlockCreator)
    : (r: Result<(LegacyStore, AdjustmentRequest)>)
    ensures Undecided(s.requests, id).Err? ==> r == Err(Undecided(s.requests, id).error)
    ensures (Undecided(s.requests, id).Ok? && create(s.blocks, BlockRequestOf(s.requests[Undecided(s.requests, id).value])).Err?)
              ==> r.Err? && r.error == create(s.blocks, BlockRequestOf(s.requests[Undecided(s.requests, id).value])).error
    ensures r.Ok? ==> var (s', q) := r.value;
      && q.id == id && q.status == Approved && q.adminResponse == response
      && s'.blocks == create(s.blocks, BlockRequestOf(s.requests[Undecided(s.requests, id).value])).value.0
      && s'.doctors == s.doctors && s'.users == s.users
  {
    var (blocks', requests', q) :- Approve(s.blocks, s.requests, id, response, now, create);
    Ok((s.(blocks := blocks', requests := requests'), q))
  }

  /** `rejectAdjustmentRequest`: no block is created. */
  function RejectAdjustmentRequest(s: LegacyStore, id: int, response: Option<string>, now: int)
    : (r: Result<(LegacyStore, AdjustmentRequest)>)
    ensures Undecided(s.requests, id).Err? ==> r == Err(Undecided(s.requests, id).error)
    ensures r.Ok? ==> var (s', q) := r.value;
      && q.id == id && q.status == Rejected && q.adminResponse == response
      && s'.blocks == s.blocks && s'.doctors == s.doctors && s'.users == s.users
  {
    var (requests', q) :- Reject(s.requests, id, response, now);
    Ok((s.(requests := requests'), q))
  }

  function FindDoctor(doctors: seq<LegacyDoctor>, id: int): (r: Option<nat>)
    ensures r.Some? ==> r.value < |doctors| && doctors[r.value].id == id
    ensures r.None? <==> forall j :: 0 <= j < |doctors| ==> doctors[j].id != id
  {
    FirstIndex(doctors, (d: LegacyDoctor) => d.id == id)
  }

  /** `deleteDoctor`: the doctor's blocks, the doctor and its user account. */
  function DeleteDoctor(s: LegacyStore, doctorId: int): (r: Result<LegacyStore>)
    ensures r.Err? <==> FindDoctor(s.doctors, doctorId).None?
    ensures r.Err? ==> r.error == DoctorNotFound
    ensures r.Ok? ==> var s' := r.value;
            var userId := s.doctors[FindDoctor(s.doctors, doctorId).value].userId;
      && (forall x :: x in s'.blocks ==> x in s.blocks && x.doctorId != doctorId)
      && (forall i :: 0 <= i < |s.blocks| && s.blocks[i].doctorId != doctorId ==> s.blocks[i] in s'.blocks)
      && (forall x :: x in s'.doctors ==> x in s.doctors && x.id != doctorId)
      && (forall i :: 0 <= i < |s.doctors| && s.doctors[i].id != doctorId ==> s.doctors[i] in s'.doctors)
      && (forall x :: x in s'.users ==> x in s.users && x.id != userId)
      && (forall i :: 0 <= i < |s.users| && s.users[i].id != userId ==> s.users[i] in s'.users)
      && s'.requests == s.requests
  {
    match FindDoctor(s.doctors, doctorId)
    case None => Err(DoctorNotFound)
    case Some(i) =>
      var userId := s.doctors[i].userId;
      Ok(s.(blocks := Filter(s.blocks, (b: Block) => b.doctorId != doctorId),
            doctors := Filter(s.doctors, (d: LegacyDoctor) => d.id != doctorId),
            users := Filter(s.users, (u: User) => u.id != userId)))
  }

  /** `CreateDoctorRequest` as the update reads it; `None` is null. */
  datatype DoctorChange = DoctorChange(
    name: Option<string>,
    phone: Option<string>,
    department: Option<string>,
    title: Option<string>,
    email: Option<string>,
    password: Option<string>)

  function FindUser(users: seq<User>, id: int): (r: Option<nat>)
    ensures r.Some? ==> r.value < |users| && users[r.value].id == id
    ensures r.None? <==> forall j :: 0 <= j < |users| ==> users[j].id != id
  {
    FirstIndex(users, (u: User) => u.id == id)
  }

  /** `existsByEmail`. */
  predicate EmailRegistered(users: seq<User>, email: string) {
    exists j :: 0 <= j < |users| && users[j].email == email
  }

  predicate UniqueEmails(users: seq<User>) {
    forall i, j :: 0 <= i < |users| && 0 <= j < |users| && i != j ==> users[i].email != users[j].email
  }

  /** A non-null, non-empty value. */
  predicate Supplied(x: Option<string>) {
    x.Some? && |x.value| > 0
  }

  /** The e-mail part of the update: a supplied address different from the
      account's current one must not belong to any account. */
  function ChangeEmail(users: seq<User>, userId: int, email: Option<string>): (r: Result<seq<User>>)
    ensures !Supplied(email) ==> r == Ok(users)
    ensures Supplied(email) && FindUser(users, userId).None? ==> r == Err(UserNotFound)
    ensures Supplied(email) && FindUser(users, userId).Some? ==>
              var u := FindUser(users, userId).value;
              && (r.Err? <==> users[u].email != email.value && EmailRegistered(users, email.value))
              && (r.Err? ==> r.error == EmailTaken)
              && (r.Ok? ==> r.value == users[u := users[u].(email := email.value)])
  {
    if !Supplied(email) then Ok(users)
    else
      match FindUser(users, userId)
      case None => Err(UserNotFound)
      case Some(u) =>
        if users[u].email == email.value then Ok(users)
        else if EmailRegistered(users, email.value) then Err(EmailTaken)
        else Ok(users[u := users[u].(email := email.value)])
  }

  /** The password part of the update: a supplied password is stored
      encoded; the encoder is a parameter. */
  function ChangePassword(users: seq<User>, userId: int, password: Option<string>, encode: string -> string)
    : (r: Result<seq<User>>)
    ensures !Supplied(password) ==> r == Ok(users)
    ensures Supplied(password) && FindUser(users, userId).None? ==> r == Err(UserNotFound)
    ensures Supplied(password) && FindUser(users, userId).Some? ==>
              var u := FindUser(users, userId).value;
              r == Ok(users[u := users[u].(password := encode(password.value))])
  {
    if !Supplied(password) then Ok(users)
    else
      match FindUser(users, userId)
      case None => Err(UserNotFound)
      case Some(u) => Ok(users[u := users[u].(password := encode(password.value))])
  }

  function Pick(supplied: Option<string>, current: Option<string>): (r: Option<string>)
    ensures supplied.Some? ==> r == supplied
    ensures supplied.None? ==> r == current
  {
    if supplied.Some? then supplied else current
  }

  /** `updateDoctor`: overwrite the supplied doctor fields, then change the
      account's e-mail and password when supplied. */
  function UpdateDoctor(s: LegacyStore, doctorId: int, c: DoctorChange, encode: string -> string)
    : (r: Result<(LegacyStore, LegacyDoctor)>)
    ensures FindDoctor(s.doctors, doctorId).None? ==> r == Err(DoctorNotFound)
    ensures r.Ok? ==> var (s', d') := r.value;
            var i := FindDoctor(s.doctors, doctorId).value;
            var d := s.doctors[i];
      && s'.doctors == s.doctors[i := d']
      && d'.id == d.id && d'.userId == d.userId
      && d'.name == Pick(c.name, d.name) && d'.phone == Pick(c.phone, d.phone)
      && d'.department == Pick(c.department, d.department) && d'.title == Pick(c.title, d.title)
      && s'.blocks == s.blocks && s'.requests == s.requests
    ensures (FindDoctor(s.doctors, doctorId).Some? && Supplied(c.email)) ==>
              var userId := s.doctors[FindDoctor(s.doctors, doctorId).value].userId;
              && (FindUser(s.users, userId).None? ==> r == Err(UserNotFound))
              && ((FindUser(s.users, userId).Some?
                   && s.users[FindUser(s.users, userId).value].email != c.email.value
                   && EmailRegistered(s.users, c.email.value)) ==> r == Err(EmailTaken))
    ensures FindDoctor(s.doctors, doctorId).Some? ==>
              var userId := s.doctors[FindDoctor(s.doctors, doctorId).value].userId;
              var e := ChangeEmail(s.users, userId, c.email);
              && (e.Err? ==> r == Err(e.error))
              && (e.Ok? ==> var p := ChangePassword(e.value, userId, c.password, encode);
                    && (p.Err? ==> r == Err(p.error))
                    && (p.Ok? ==> r.Ok? && r.value.0.users == p.value))
    ensures (FindDoctor(s.doctors, doctorId).Some? && !Supplied(c.email) && Supplied(c.password)
             && FindUser(s.users, s.doctors[FindDoctor(s.doctors, doctorId).value].userId).None?)
              ==> r == Err(UserNotFound)
  {
    match FindDoctor(s.doctors, doctorId)
    case None => Err(DoctorNotFound)
    case Some(i) =>
      var d := s.doctors[i];
      var d' := d.(name := Pick(c.name, d.name), phone := Pick(c.phone, d.phone),
                   department := Pick(c.department, d.department), title := Pick(c.title, d.title));
      var users1 :- ChangeEmail(s.users, d.userId, c.email);
      var users2 :- ChangePassword(users1, d.userId, c.password, encode);
      Ok((s.(doctors := s.doctors[i := d'], users := users2), d'))
  }

  /** A successful update leaves the doctor's account with the supplied
      e-mail address and the encoding of the supplied password, and touches
      no other account. */
  lemma UpdateWritesAccount(s: LegacyStore, doctorId: int, c: DoctorChange, encode: string -> string)
    requires UpdateDoctor(s, doctorId, c, encode).Ok?
    ensures var users' := UpdateDoctor(s, doctorId, c, encode).value.0.users;
            var userId := s.doctors[FindDoctor(s.doctors, doctorId).value].userId;
            && |users'| == |s.users|
            && (forall j :: 0 <= j < |s.users| && s.users[j].id != userId ==> users'[j] == s.users[j])
            && (forall j :: 0 <= j < |s.users| && s.users[j].id == userId ==> users'[j].id == userId)
            && (Supplied(c.email) ==> exists j :: 0 <= j < |users'| && users'[j].id == userId && users'[j].email == c.email.value)
            && (Supplied(c.password) ==>
                  exists j :: 0 <= j < |users'| && users'[j].id == userId && users'[j].password == encode(c.password.value))
  {
    var userId := s.doctors[FindDoctor(s.doctors, doctorId).value].userId;
    var e := ChangeEmail(s.users, userId, c.email);
    var p := ChangePassword(e.value, userId, c.password, encode);
    if Supplied(c.email) {
      var u := FindUser(s.users, userId).value;
      assert p.value[u].id == userId && p.value[u].email == c.email.value;
    }
    if Supplied(c.password) {
      var u := FindUser(e.value, userId).value;
      assert p.value[u].id == userId && p.value[u].password == encode(c.password.value);
    }
  }

  /** The update never gives two accounts the same e-mail address. */
  lemma UpdateKeepsEmailsUnique(s: LegacyStore, doctorId: int, c: DoctorChange, encode: string -> string)
    requires UniqueEmails(s.users)
    requires UpdateDoctor(s, doctorId, c, encode).Ok?
    ensures UniqueEmails(UpdateDoctor(s, doctorId, c, encode).value.0.users)
  {
    var userId := s.doctors[FindDoctor(s.doctors, doctorId).value].userId;
    var users1 := ChangeEmail(s.users, userId, c.email).value;
    ChangeEmailKeepsUnique(s.users, userId, c.email);
    ChangePasswordKeepsEmails(users1, userId, c.password, encode);
  }

  /** An accepted e-mail change keeps addresses unique. */
  lemma ChangeEmailKeepsUnique(users: seq<User>, userId: int, email: Option<string>)
    requires UniqueEmails(users)
    requires ChangeEmail(users, userId, email).Ok?
    ensures UniqueEmails(ChangeEmail(users, userId, email).value)
  {
    if Supplied(email) {
      var u := FindUser(users, userId).value;
      if users[u].email != email.value {
        assert !EmailRegistered(users, email.value);
      }
    }
  }

  /** A password change touches no address. */
  lemma ChangePasswordKeepsEmails(users: seq<User>, userId: int, password: Option<string>, encode: string -> string)
    requires ChangePassword(users, userId, password, encode).Ok?
    ensures var users' := ChangePassword(users, userId, password, encode).value;
            |users'| == |users| && forall j :: 0 <= j < |users| ==> users'[j].email == users[j].email
  {
  }
}
