/**
 * A repository user: login (which is also the user's name), password, long
 * name, description, the enabled flag and the nullable admin flag, with
 * its constructors and setters.
 *
 * The object id is a type parameter: ids are not part of this model.
 */
module RepositoryUser {
  import opened JavaLang

  /** The type name a user has as a repository element. */
  const RepositoryElementType: string := "user"

  /** The message of the exception that `setRepositoryDirectory` always throws. */
  const DirectoryNotSupported: string := "Setting a directory on a database connection is not supported"

  /** What a call that may throw ends with: normally, or with an exception's message. */
  datatype Outcome = Normal | Thrown(message: string)

  class UserInfo<Id> {
    var id: Option<Id>
    var login: Option<string>
    var password: Option<string>
    var username: Option<string>
    var description: Option<string>
    var enabled: bool
    var admin: Option<bool>

    /** The no-argument constructor: everything null, but enabled. */
    constructor ()
      ensures id.None? && login.None? && password.None? && username.None? && description.None?
      ensures enabled && admin.None?
    {
      id := None;
      login := None;
      password := None;
      username := None;
      description := None;
      enabled := true;
      admin := None;
    }

    /** `UserInfo(login)`: the no-argument constructor, then the login. */
    constructor WithLogin(login: Option<string>)
      ensures this.login == login
      ensures id.None? && password.None? && username.None? && description.None?
      ensures enabled && admin.None?
    {
      id := None;
      this.login := login;
      password := None;
      username := None;
      description := None;
      enabled := true;
      admin := None;
    }

    /**
     * The five-argument constructor: the given values; id and admin are
     * left null, as Java leaves fields the constructor does not assign.
     */
    constructor Create(login: Option<string>, password: Option<string>, username: Option<string>,
                       description: Option<string>, enabled: bool)
      ensures this.login == login && this.password == password && this.username == username
      ensures this.description == description && this.enabled == enabled
      ensures id.None? && admin.None?
    {
      id := None;
      this.login := login;
      this.password := password;
      this.username := username;
      this.description := description;
      this.enabled := enabled;
      admin := None;
    }

    /** The copy constructor: all seven values of `from`, the id and the admin flag included. */
    constructor Copy(from: UserInfo<Id>)
      ensures id == from.id && login == from.login && password == from.password
      ensures username == from.username && description == from.description
      ensures enabled == from.enabled && admin == from.admin
    {
      id := from.id;
      login := from.login;
      password := from.password;
      username := from.username;
      description := from.description;
      enabled := from.enabled;
      admin := from.admin;
    }

    /** `getName`: the name of a user is its login. */
    function GetName(): (r: Option<string>)
      reads this
      ensures r == login
    {
      login
    }

    /** `setName`: writes the login, so `getName` returns the new name; nothing else changes. */
    method SetName(name: Option<string>)
      modifies this`login
      ensures GetName() == name
    {
      login := name;
    }

    method SetEnabledTo(enabled: bool)
      modifies this`enabled
      ensures this.enabled == enabled
    {
      this.enabled := enabled;
    }

    /** `setEnabled()`: the user is enabled afterwards. */
    method SetEnabled()
      modifies this`enabled
      ensures enabled
    {
      SetEnabledTo(true);
    }

    /** `setDisabled()`: the user is disabled afterwards. */
    method SetDisabled()
      modifies this`enabled
      ensures !enabled
    {
      SetEnabledTo(false);
    }

    /** `setRepositoryDirectory`: users have no directory; the call always throws and changes nothing. */
    method SetRepositoryDirectory<Dir>(directory: Dir) returns (r: Outcome)
      ensures r == Thrown(DirectoryNotSupported)
    {
      r := Thrown(DirectoryNotSupported);
    }
  }
}
