/** The user record of lib/models/User.ts: unique trimmed username of 2 to 30 characters. */
module UserModel {
  import opened Http
  import opened Text

  const MinUsernameLength: nat := 2
  const MaxUsernameLength: nat := 30

  /** A stored user (IUser); `totalPoints` defaults to 0 and is never negative. */
  datatype User = User(id: Id, username: string, totalPoints: nat, createdAt: int)

  /** The schema's constraints on `username`: required, trimmed, 2 to 30 characters. */
  predicate ValidUsername(name: string) {
    Trimmed(name) && MinUsernameLength <= |name| <= MaxUsernameLength
  }

  /** Some stored user has this username (`User.findOne({ username })`). */
  predicate UsernameTaken(us: seq<User>, name: string) {
    exists i :: 0 <= i < |us| && us[i].username == name
  }

  /** The unique index on `username`. */
  predicate UniqueUsernames(us: seq<User>) {
    forall i, j :: 0 <= i < j < |us| ==> us[i].username != us[j].username
  }
}
