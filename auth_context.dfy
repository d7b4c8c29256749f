/** The mock authentication context: the signed-in institution, a loading
    flag, and the browser's `institution` storage entry, which the provider
    reads once on mount and writes on login and logout. The one-second login
    delay is not modelled; whether `localStorage.setItem` throws is a
    parameter. */
module AuthContext {
  import opened Js

  datatype Institution = Institution(id: int, name: string, email: string, hasPaid: bool, plan: string)

  /** What the `institution` storage entry holds: the JSON of an institution,
      the empty string, or text that `JSON.parse` rejects. */
  datatype StoredEntry = Json(institution: Institution) | EmptyText | Unparseable

  /** The institution every login produces. */
  function MockInstitution(email: string): (i: Institution)
    ensures i.id == 1 && i.email == email && i.hasPaid && i.plan == "pro"
    ensures i.name == "University of Excellence"
  {
    Institution(1, "University of Excellence", email, true, "pro")
  }

  datatype Result<T> = Ok(value: T) | Err(message: string)

  const OutsideProviderMessage: string := "useAuth must be used within an AuthProvider"

  /** `useAuth`: the context value, or the error thrown outside a provider. */
  function UseAuth<T>(context: Option<T>): (r: Result<T>)
    ensures r.Ok? <==> context.Some?
    ensures r.Ok? ==> r.value == context.value
    ensures r.Err? ==> r.message == OutsideProviderMessage
  {
    match context
    case Some(c) => Ok(c)
    case None => Err(OutsideProviderMessage)
  }

  class AuthProvider {
    var institution: Option<Institution>
    var isLoading: bool
    /** The `institution` key of local storage. */
    var stored: Option<StoredEntry>

    /** Memory and storage agree: the entry is the JSON of the institution
        exactly when one is signed in, and is absent otherwise. */
    ghost predicate Synced()
      reads this
    {
      stored == (if institution.Some? then Some(Json(institution.value)) else None)
    }

    /** The first render: nobody signed in yet, loading, and whatever the
        browser kept from an earlier session. */
    constructor (storage: Option<StoredEntry>)
      ensures institution == None && isLoading && stored == storage
    {
      institution := None;
      isLoading := true;
      stored := storage;
    }

    /** The mount effect. A stored institution is restored; an absent or empty
        entry leaves nobody signed in. Either way loading ends. Text that
        `JSON.parse` rejects throws out of the effect before loading ends. */
    method Mount()
      modifies this
      ensures stored == old(stored)
      ensures old(stored).Some? && old(stored).value.Json? ==>
        institution == Some(old(stored).value.institution) && !isLoading
      ensures old(stored).None? || old(stored) == Some(EmptyText) ==>
        institution == old(institution) && !isLoading
      ensures old(stored) == Some(Unparseable) ==>
        institution == old(institution) && isLoading == old(isLoading)
    {
      match stored {
        case None =>
          isLoading := false;
        case Some(entry) =>
          match entry {
            case Json(i) =>
              institution := Some(i);
              isLoading := false;
            case EmptyText =>
              isLoading := false;
            case Unparseable =>
          }
      }
    }

    /** `login(email, password)`: the password is ignored. On success the
        institution is signed in, stored, and `true` returned; when writing to
        storage throws, the institution is already signed in but the entry is
        unchanged and `false` is returned. Loading ends on both paths. */
    method Login(email: string, password: string, storageThrows: bool) returns (ok: bool)
      modifies this
      ensures institution == Some(MockInstitution(email))
      ensures !isLoading
      ensures ok <==> !storageThrows
      ensures ok ==> stored == Some(Json(MockInstitution(email))) && Synced()
      ensures !ok ==> stored == old(stored)
    {
      isLoading := true;
      var mock := MockInstitution(email);
      institution := Some(mock);
      if storageThrows {
        ok := false;
      } else {
        stored := Some(Json(mock));
        ok := true;
      }
      isLoading := false;
    }

    /** `logout`: nobody signed in and the entry removed; the loading flag is
        left as it was. */
    method Logout()
      modifies this
      ensures institution == None && stored == None && Synced()
      ensures isLoading == old(isLoading)
    {
      institution := None;
      stored := None;
    }
  }

  /** A session saved by a successful login is restored by the next mount of a
      fresh provider over the same storage. */
  method SessionSurvivesReload(email: string, password: string) returns (restored: AuthProvider)
    ensures restored.institution == Some(MockInstitution(email)) && !restored.isLoading
  {
    var first := new AuthProvider(None);
    first.Mount();
    var ok := first.Login(email, password, false);
    restored := new AuthProvider(first.stored);
    restored.Mount();
  }

  /** After logout a reload restores nobody. */
  method LogoutSurvivesReload(email: string, password: string) returns (restored: AuthProvider)
    ensures restored.institution == None && !restored.isLoading
  {
    var first := new AuthProvider(None);
    first.Mount();
    var ok := first.Login(email, password, false);
    first.Logout();
    restored := new AuthProvider(first.stored);
    restored.Mount();
  }
}
