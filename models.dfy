/** The stored documents: the fields of the User and Attendance schemas, and
    the two credential primitives the handlers call but do not define. */
module Models {
  import opened Base

  /** A document `_id`. Fresh ids are handed out by the user table. */
  type UserId = nat

  /** A User document. Absent optional strings are "". */
  datatype User = User(
    id: UserId,
    name: string,
    email: string,
    password: string,   // the stored hash, never the plain text
    role: string,
    department: string,
    age: Option<int>,
    education: string,
    state: string,
    religion: string,
    image: string,
    accountNumber: string,
    bankCode: string)

  /** An Attendance document. `date` is the day key written at sign-in. */
  datatype Attendance = Attendance(
    employeeId: UserId,
    date: Time,
    signInTime: Option<Time>,
    signOutTime: Option<Time>)

  /** `bcrypt.compare(plain, hash)`, left uninterpreted. */
  type PasswordCheck = (string, string) -> bool

  /** `bcrypt.hash(plain, 10)`, left uninterpreted. */
  type PasswordHash = string -> string

  /** `User.findById(id)`: the first stored user with that id. */
  function FindUser(users: seq<User>, id: UserId): (r: Option<User>)
    ensures r.Some? <==> exists i :: 0 <= i < |users| && users[i].id == id
    ensures r.Some? ==> r.value in users && r.value.id == id
  {
    match FirstIndex(users, (u: User) => u.id == id)
    case None => None
    case Some(i) => Some(users[i])
  }
}
