/** The directory composable: the reactive state of the user list, the selection
    modal and the load error, with the operations that change it. The awaited
    delay and service call split `fetchUsers` into a begin step and a
    completion step; the 300 ms timer of `closeModal` becomes a pending clear
    that the environment fires later. */
module UseUsers {
  import opened Wrappers
  import opened Interfaces
  import opened Seqs
  import ApiClient
  import UserService

  const FETCH_FAILED: string := "Error al cargar los usuarios"

  /** How the awaited service call of `fetchUsers` settled: with the response,
      or by throwing a value whose `message` may be missing. */
  datatype FetchOutcome = Fetched(response: ApiResponse<seq<User>>) | Threw(message: Option<string>)

  /** The settled service call as the composable's `try`/`catch` sees it. */
  function Settle(r: Result<ApiResponse<seq<User>>, ApiError>): (o: FetchOutcome)
    ensures r.Success? <==> o.Fetched?
    ensures r.Success? ==> o.response == r.value
    ensures r.Failure? ==> o.message == Some(r.error.message)
  {
    match r
    case Success(response) => Fetched(response)
    case Failure(e) => Threw(Some(e.message))
  }

  /** `apiError.message || 'Error al cargar los usuarios'`. */
  function FetchErrorMessage(message: Option<string>): (m: string)
    ensures m != ""
    ensures ApiClient.Truthy(message) ==> m == message.value
    ensures !ApiClient.Truthy(message) ==> m == FETCH_FAILED
  {
    ApiClient.OrElse(message, FETCH_FAILED)
  }

  /** A failure that came through the client's interceptor always carries a
      non-empty message, so the composable's own fallback never shows and the
      error it keeps is the normalised message. */
  lemma InterceptedFailureKeepsMessage(raw: ApiClient.RawError, base: string)
    ensures var o := Settle(UserService.GetAllUsers(
              ApiClient.Intercept<ApiClient.HttpResponse<seq<User>>>(Failure(raw)), base));
      o.Threw? && FetchErrorMessage(o.message) == ApiClient.NormaliseError(raw).message
  {
  }

  class Directory {
    var users: seq<User>
    var loading: bool
    var error: Option<string>
    var searchTerm: string
    var selectedUser: Option<User>
    var modalOpen: bool
    /** Fetches begun and not yet settled. */
    ghost var inFlight: nat
    /** Clears scheduled by `closeModal` that have not fired yet. */
    ghost var pendingClears: nat

    /** A kept error is never empty; the list is loading only while a fetch
        is in flight; a selection outliving a closed modal is always due to be
        cleared. */
    ghost predicate Valid()
      reads this
    {
      && (error.Some? ==> error.value != "")
      && (loading ==> inFlight > 0)
      && (!modalOpen && selectedUser.Some? ==> pendingClears > 0)
    }

    /** The state `useUsers` creates. */
    constructor ()
      ensures Valid()
      ensures users == [] && !loading && error == None && searchTerm == ""
      ensures selectedUser == None && !modalOpen
      ensures inFlight == 0 && pendingClears == 0
    {
      users := [];
      loading := false;
      error := None;
      searchTerm := "";
      selectedUser := None;
      modalOpen := false;
      inFlight := 0;
      pendingClears := 0;
    }

    /** The computed `filteredUsers`: the name filter over the current list
        and term, an ordered selection of the list's users that match. */
    function FilteredUsers(): (r: seq<User>)
      reads this
      ensures IsSubsequence(r, users)
      ensures forall i :: 0 <= i < |r| ==>
        UserService.MatchesKey(r[i], UserService.SearchKey(searchTerm))
    {
      UserService.FilterPreservesOrder(users, searchTerm);
      UserService.FilterResultMatches(users, searchTerm);
      UserService.FilterUsersByName(users, searchTerm)
    }

    /** The synchronous start of `fetchUsers`, up to its first `await`. */
    method BeginFetch()
      requires Valid()
      modifies this
      ensures Valid()
      ensures loading && error == None && inFlight == old(inFlight) + 1
      ensures users == old(users) && searchTerm == old(searchTerm)
      ensures selectedUser == old(selectedUser) && modalOpen == old(modalOpen)
      ensures pendingClears == old(pendingClears)
    {
      loading := true;
      error := None;
      inFlight := inFlight + 1;
    }

    /** The rest of `fetchUsers` once the service call settled: the list is
        replaced on success, the error is set on failure, and `finally` clears
        the loading flag either way. */
    method CompleteFetch(outcome: FetchOutcome)
      requires Valid() && inFlight > 0
      modifies this
      ensures Valid()
      ensures !loading && inFlight == old(inFlight) - 1
      ensures outcome.Fetched? ==> users == outcome.response.data && error == old(error)
      ensures outcome.Threw? ==> users == old(users) && error == Some(FetchErrorMessage(outcome.message))
      ensures searchTerm == old(searchTerm) && selectedUser == old(selectedUser)
      ensures modalOpen == old(modalOpen) && pendingClears == old(pendingClears)
    {
      match outcome {
        case Fetched(response) =>
          users := response.data;
        case Threw(message) =>
          error := Some(FetchErrorMessage(message));
      }
      loading := false;
      inFlight := inFlight - 1;
    }

    /** One `fetchUsers` call with no other fetch settling in between. */
    method FetchUsers(outcome: FetchOutcome)
      requires Valid()
      modifies this
      ensures Valid()
      ensures !loading && inFlight == old(inFlight)
      ensures outcome.Fetched? ==> users == outcome.response.data && error == None
      ensures outcome.Threw? ==> users == old(users) && error == Some(FetchErrorMessage(outcome.message))
      ensures searchTerm == old(searchTerm) && selectedUser == old(selectedUser)
      ensures modalOpen == old(modalOpen) && pendingClears == old(pendingClears)
    {
      BeginFetch();
      CompleteFetch(outcome);
    }

    /** `selectUser`: show the user in the modal. */
    method SelectUser(u: User)
      requires Valid()
      modifies this
      ensures Valid()
      ensures selectedUser == Some(u) && modalOpen
      ensures users == old(users) && loading == old(loading) && error == old(error)
      ensures searchTerm == old(searchTerm)
      ensures inFlight == old(inFlight) && pendingClears == old(pendingClears)
    {
      selectedUser := Some(u);
      modalOpen := true;
    }

    /** `closeModal`: close now and schedule the selection to be cleared. */
    method CloseModal()
      requires Valid()
      modifies this
      ensures Valid()
      ensures !modalOpen && selectedUser == old(selectedUser)
      ensures pendingClears == old(pendingClears) + 1
      ensures users == old(users) && loading == old(loading) && error == old(error)
      ensures searchTerm == old(searchTerm) && inFlight == old(inFlight)
    {
      modalOpen := false;
      pendingClears := pendingClears + 1;
    }

    /** One scheduled clear fires: the selection is dropped, whatever it is now. */
    method FireClear()
      requires Valid() && pendingClears > 0
      modifies this
      ensures Valid()
      ensures selectedUser == None && pendingClears == old(pendingClears) - 1
      ensures modalOpen == old(modalOpen)
      ensures users == old(users) && loading == old(loading) && error == old(error)
      ensures searchTerm == old(searchTerm) && inFlight == old(inFlight)
    {
      selectedUser := None;
      pendingClears := pendingClears - 1;
    }

    /** `clearError`. */
    method ClearError()
      requires Valid()
      modifies this
      ensures Valid()
      ensures error == None
      ensures users == old(users) && loading == old(loading) && searchTerm == old(searchTerm)
      ensures selectedUser == old(selectedUser) && modalOpen == old(modalOpen)
      ensures inFlight == old(inFlight) && pendingClears == old(pendingClears)
    {
      error := None;
    }

    /** A consumer writing the exposed `searchTerm` ref (the search box). */
    method SetSearchTerm(term: string)
      requires Valid()
      modifies this
      ensures Valid()
      ensures searchTerm == term
      ensures users == old(users) && loading == old(loading) && error == old(error)
      ensures selectedUser == old(selectedUser) && modalOpen == old(modalOpen)
      ensures inFlight == old(inFlight) && pendingClears == old(pendingClears)
    {
      searchTerm := term;
    }
  }

  /** Selecting twice before any close leaves the second user shown. */
  method SelectTwice(u1: User, u2: User) returns (selected: Option<User>, open: bool)
    ensures selected == Some(u2) && open
  {
    var d := new Directory();
    d.SelectUser(u1);
    d.SelectUser(u2);
    selected, open := d.selectedUser, d.modalOpen;
  }

  /** Right after closing, the user is still selected; once the clear fires
      it is gone. */
  method CloseThenClear(u: User) returns (afterClose: Option<User>, open: bool, afterFire: Option<User>)
    ensures afterClose == Some(u) && !open && afterFire == None
  {
    var d := new Directory();
    d.SelectUser(u);
    d.CloseModal();
    afterClose, open := d.selectedUser, d.modalOpen;
    d.FireClear();
    afterFire := d.selectedUser;
  }

  /** Re-selecting while a clear is pending does not cancel it: when it fires
      the modal is open with nothing selected. */
  method ReselectDuringClose(u1: User, u2: User) returns (selected: Option<User>, open: bool)
    ensures selected == None && open
  {
    var d := new Directory();
    d.SelectUser(u1);
    d.CloseModal();
    d.SelectUser(u2);
    d.FireClear();
    selected, open := d.selectedUser, d.modalOpen;
  }

  /** A failed reload keeps the list of the earlier successful load, stops
      loading and shows a non-empty error; `clearError` then hides it. */
  method FailedReloadKeepsUsers(first: ApiResponse<seq<User>>, message: Option<string>)
    returns (users: seq<User>, loading: bool, error: Option<string>, afterClear: Option<string>)
    ensures users == first.data && !loading
    ensures error.Some? && error.value != "" && afterClear == None
  {
    var d := new Directory();
    d.FetchUsers(Fetched(first));
    d.FetchUsers(Threw(message));
    users, loading, error := d.users, d.loading, d.error;
    d.ClearError();
    afterClear := d.error;
  }

  /** Two overlapping fetches: the first to settle already clears the loading
      flag while the other is still in flight, and the last to settle decides
      the list. */
  method OverlappingFetches(a: ApiResponse<seq<User>>, b: ApiResponse<seq<User>>)
    returns (loadingAfterFirst: bool, users: seq<User>)
    ensures !loadingAfterFirst && users == b.data
  {
    var d := new Directory();
    d.BeginFetch();
    d.BeginFetch();
    d.CompleteFetch(Fetched(a));
    loadingAfterFirst := d.loading;
    d.CompleteFetch(Fetched(b));
    users := d.users;
  }
}
