/** The records the scheduling core reads but does not own: departments,
    doctors, patients and user accounts. Nullable columns are `Option`s. */
module Directory {
  import opened Base

  datatype Department = Department(id: int, name: Option<string>, description: Option<string>)

  /** A doctor together with the department row it refers to, as JPA loads it. */
  datatype Doctor = Doctor(
    id: int,
    userId: int,
    name: Option<string>,
    phone: Option<string>,
    department: Option<Department>,
    title: Option<string>)

  datatype Patient = Patient(id: int, name: Option<string>, phone: Option<string>)

  datatype User = User(id: int, email: string, password: string)
}
