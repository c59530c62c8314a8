/**
 * The user record of users/models.py (`CustomUser`): a unique email used as
 * the login, optional bio and a many-to-many set of favorite books. The
 * credential is kept only as the output of the password hash.
 */
module UserModels {
  import opened Base

  datatype User = User(
    id: Uuid,
    username: string,
    firstName: string,
    lastName: string,
    email: string,
    bio: Option<string>,
    passwordHash: string,
    favorites: set<Uuid>)
}
