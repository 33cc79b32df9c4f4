/** The pure parts of the user service: avatar decoration of fetched records,
    the name filter and the display formatters. The HTTP requests themselves
    are inputs: each fetch is given the outcome the intercepted client produced. */
module UserService {
  import opened Wrappers
  import opened Interfaces
  import opened Js
  import opened Seqs
  import opened ApiClient

  /** Size of the avatar image pool. */
  const AVATAR_POOL: nat := 70

  const USERS_FETCHED: string := "Usuarios obtenidos exitosamente"
  const USER_FETCHED: string := "Usuario obtenido exitosamente"

  // ---------------------------------------------------------------- avatars

  /** The pool image a list position gets: `(index % 70) + 1`. */
  function AvatarIndex(index: nat): (k: nat)
    ensures 1 <= k <= AVATAR_POOL
  {
    index % AVATAR_POOL + 1
  }

  /** The pool image a single-record fetch gets: `(id % 70) + 1`, with
      JavaScript's sign-preserving remainder. */
  function ByIdAvatarIndex(id: int): (k: int)
    ensures id >= 0 ==> 1 <= k <= AVATAR_POOL && k == AvatarIndex(id)
    ensures id < 0 ==> 2 - AVATAR_POOL as int <= k <= 1
    ensures id < 0 ==> k == -((-id) % AVATAR_POOL) + 1
  {
    JsRemainder(id, AVATAR_POOL) + 1
  }

  /** The avatar URL: the pool's base URL followed by the decimal index. */
  function AvatarUrl(base: string, index: int): (url: string)
    ensures base <= url
  {
    base + IntToDecimal(index)
  }

  /** The `map` over the fetched list: each record gets the avatar of its
      position; every other field is kept. */
  function WithAvatars(users: seq<User>, base: string): (r: seq<User>)
    ensures |r| == |users|
    ensures forall i :: 0 <= i < |r| ==> r[i].(avatar := users[i].avatar) == users[i]
    ensures forall i :: 0 <= i < |r| ==> r[i].avatar == base + NatToDecimal(AvatarIndex(i))
  {
    seq(|users|, i requires 0 <= i < |users| => users[i].(avatar := AvatarUrl(base, AvatarIndex(i))))
  }

  /** The avatars repeat with period 70 along the list. */
  lemma AvatarsCycle(users: seq<User>, base: string, i: nat)
    requires i + AVATAR_POOL < |users|
    ensures WithAvatars(users, base)[i].avatar == WithAvatars(users, base)[i + AVATAR_POOL].avatar
  {
    assert (i + AVATAR_POOL) % AVATAR_POOL == i % AVATAR_POOL;
  }

  /** Two records fewer than 70 positions apart never share an avatar. */
  lemma AvatarsDistinctWithinPool(users: seq<User>, base: string, i: nat, j: nat)
    requires i < j < |users| && j - i < AVATAR_POOL
    ensures WithAvatars(users, base)[i].avatar != WithAvatars(users, base)[j].avatar
  {
    var r := WithAvatars(users, base);
    assert AvatarIndex(i) != AvatarIndex(j);
    DecimalInjective(AvatarIndex(i), AvatarIndex(j));
    assert r[i].avatar[|base|..] == NatToDecimal(AvatarIndex(i));
    assert r[j].avatar[|base|..] == NatToDecimal(AvatarIndex(j));
  }

  /** `getAllUsers` after the request settled. */
  function GetAllUsers(outcome: Result<HttpResponse<seq<User>>, ApiError>, base: string)
    : (r: Result<ApiResponse<seq<User>>, ApiError>)
    ensures outcome.Failure? ==> r == Failure(outcome.error)
    ensures outcome.Success? ==>
      && r.Success?
      && r.value.data == WithAvatars(outcome.value.data, base)
      && r.value.status == outcome.value.status
      && r.value.message == Some(USERS_FETCHED)
  {
    match outcome
    case Failure(e) => Failure(e)
    case Success(response) =>
      Success(ApiResponse(WithAvatars(response.data, base), response.status, Some(USERS_FETCHED)))
  }

  /** `getUserById` after the request settled. */
  function GetUserById(outcome: Result<HttpResponse<User>, ApiError>, id: int, base: string)
    : (r: Result<ApiResponse<User>, ApiError>)
    ensures outcome.Failure? ==> r == Failure(outcome.error)
    ensures outcome.Success? ==>
      && r.Success?
      && r.value.data.(avatar := outcome.value.data.avatar) == outcome.value.data
      && r.value.data.avatar == AvatarUrl(base, ByIdAvatarIndex(id))
      && r.value.status == outcome.value.status
      && r.value.message == Some(USER_FETCHED)
  {
    match outcome
    case Failure(e) => Failure(e)
    case Success(response) =>
      Success(ApiResponse(response.data.(avatar := AvatarUrl(base, ByIdAvatarIndex(id))),
                          response.status, Some(USER_FETCHED)))
  }

  /** A record fetched by a non-negative id gets the avatar the list gives the
      record at POSITION id. */
  lemma ByIdUsesListPosition(users: seq<User>, id: int, status: int, base: string)
    requires 0 <= id < |users|
    ensures GetUserById(Success(HttpResponse(users[id], status)), id, base).value.data
         == WithAvatars(users, base)[id]
  {
  }

  /** A negative id keeps its sign through the remainder: the record fetched
      by id -5 gets the avatar suffix `-4`, which names no pool image. */
  lemma NegativeIdAvatar(u: User, status: int, base: string)
    ensures GetUserById(Success(HttpResponse(u, status)), -5, base).value.data.avatar == base + "-4"
  {
    assert ByIdAvatarIndex(-5) == -4;
    assert NatToDecimal(4) == "4";
  }

  /** Where ids count from 1 along the list (user `i + 1` at position `i`), a
      record's avatar in the list and its avatar when fetched by id differ. */
  lemma ListAndByIdAvatarsDiffer(users: seq<User>, i: nat, status: int, base: string)
    requires i < |users| && users[i].id == i + 1
    ensures GetUserById(Success(HttpResponse(users[i], status)), users[i].id, base).value.data.avatar
         != WithAvatars(users, base)[i].avatar
  {
    var byId := GetUserById(Success(HttpResponse(users[i], status)), users[i].id, base).value.data;
    assert AvatarIndex(i + 1) != AvatarIndex(i);
    DecimalInjective(AvatarIndex(i + 1), AvatarIndex(i));
    assert byId.avatar[|base|..] == NatToDecimal(AvatarIndex(i + 1));
    assert WithAvatars(users, base)[i].avatar[|base|..] == NatToDecimal(AvatarIndex(i));
  }

  // ---------------------------------------------------------------- name filter

  /** `searchTerm.toLowerCase().trim()`. */
  function SearchKey(searchTerm: string): (key: string)
    ensures |key| <= |searchTerm|
  {
    Trim(Lower(searchTerm))
  }

  /** The filter's test: the key occurs in the lowered name, username or email
      (none of which is trimmed). */
  predicate MatchesKey(u: User, key: string)
  {
    Includes(Lower(u.name), key) || Includes(Lower(u.username), key) || Includes(Lower(u.email), key)
  }

  function Matcher(key: string): User -> bool
  {
    u => MatchesKey(u, key)
  }

  /** `filterUsersByName`. */
  function FilterUsersByName(users: seq<User>, searchTerm: string): (r: seq<User>)
    ensures |r| <= |users|
  {
    if Trim(searchTerm) == [] then users else Filter(users, Matcher(SearchKey(searchTerm)))
  }

  /** The search key is empty exactly when the term is blank. */
  lemma SearchKeyEmptyIffBlank(searchTerm: string)
    ensures SearchKey(searchTerm) == [] <==> AllSpace(searchTerm)
    ensures Trim(searchTerm) == [] <==> AllSpace(searchTerm)
  {
    TrimEmptyIffAllSpace(Lower(searchTerm));
    TrimEmptyIffAllSpace(searchTerm);
    LowerAllSpace(searchTerm);
  }

  /** A blank term returns the very input list. */
  lemma BlankTermReturnsInput(users: seq<User>, searchTerm: string)
    requires AllSpace(searchTerm)
    ensures FilterUsersByName(users, searchTerm) == users
  {
    SearchKeyEmptyIffBlank(searchTerm);
  }

  /** For any other term, a user is in the result exactly when it is in the
      input and matches the search key. */
  lemma FilterMembershipCharacterised(users: seq<User>, searchTerm: string, u: User)
    requires !AllSpace(searchTerm)
    ensures SearchKey(searchTerm) != []
    ensures u in FilterUsersByName(users, searchTerm) <==> u in users && MatchesKey(u, SearchKey(searchTerm))
  {
    SearchKeyEmptyIffBlank(searchTerm);
    FilterMembership(users, Matcher(SearchKey(searchTerm)), u);
  }

  /** Every user in the result matches the search key, whatever the term. */
  lemma FilterResultMatches(users: seq<User>, searchTerm: string)
    ensures forall i :: 0 <= i < |FilterUsersByName(users, searchTerm)| ==>
      MatchesKey(FilterUsersByName(users, searchTerm)[i], SearchKey(searchTerm))
  {
    SearchKeyEmptyIffBlank(searchTerm);
    if AllSpace(searchTerm) {
      forall i | 0 <= i < |users| ensures MatchesKey(users[i], SearchKey(searchTerm)) {
        IncludesEmpty(Lower(users[i].name));
      }
    }
  }

  /** The result keeps the input's order: it is a subsequence of the input. */
  lemma FilterPreservesOrder(users: seq<User>, searchTerm: string)
    ensures IsSubsequence(FilterUsersByName(users, searchTerm), users)
  {
    if Trim(searchTerm) == [] {
      SubsequenceReflexive(users);
    } else {
      FilterIsSubsequence(users, Matcher(SearchKey(searchTerm)));
    }
  }

  /** The blank-term shortcut changes no result: filtering with the empty key
      keeps every user anyway, since every field includes the empty string. */
  lemma ShortcutAgreesWithFilter(users: seq<User>, searchTerm: string)
    ensures FilterUsersByName(users, searchTerm) == Filter(users, Matcher(SearchKey(searchTerm)))
  {
    SearchKeyEmptyIffBlank(searchTerm);
    if Trim(searchTerm) == [] {
      forall i | 0 <= i < |users| ensures Matcher(SearchKey(searchTerm))(users[i]) {
        IncludesEmpty(Lower(users[i].name));
      }
      FilterKeepsAll(users, Matcher(SearchKey(searchTerm)));
    }
  }

  lemma LowerAppend(a: string, b: string)
    ensures Lower(a + b) == Lower(a) + Lower(b)
  {
  }

  /** Whitespace around the term never changes the result. */
  lemma PaddingIgnored(users: seq<User>, w1: string, t: string, w2: string)
    requires AllSpace(w1) && AllSpace(w2)
    ensures FilterUsersByName(users, w1 + t + w2) == FilterUsersByName(users, t)
  {
    TrimIgnoresPadding(w1, t, w2);
    LowerAppend(w1 + t, w2);
    LowerAppend(w1, t);
    LowerAllSpace(w1);
    LowerAllSpace(w2);
    TrimIgnoresPadding(Lower(w1), Lower(t), Lower(w2));
  }

  /** The case of the term never changes the result. */
  lemma CaseOfTermIgnored(users: seq<User>, t: string)
    ensures FilterUsersByName(users, Lower(t)) == FilterUsersByName(users, t)
  {
    SearchKeyEmptyIffBlank(t);
    SearchKeyEmptyIffBlank(Lower(t));
    LowerIdempotent(t);
  }

  // ---------------------------------------------------------------- formatters

  /** The characters `formatPhone` keeps: `\d`, `\s`, `-`, `(`, `)` and `.`. */
  predicate IsPhoneChar(c: char)
  {
    IsDigit(c) || IsSpace(c) || c == '-' || c == '(' || c == ')' || c == '.'
  }

  /** `phone.replace(/[^\d\s-().]/g, '')`. */
  function FormatPhone(phone: string): (r: string)
    ensures |r| <= |phone|
    ensures forall i :: 0 <= i < |r| ==> IsPhoneChar(r[i])
  {
    Filter(phone, IsPhoneChar)
  }

  /** The kept characters are in their original order, and each allowed
      character keeps every occurrence while each other one loses all. */
  lemma FormatPhoneKeepsAllowed(phone: string, c: char)
    ensures IsSubsequence(FormatPhone(phone), phone)
    ensures multiset(FormatPhone(phone))[c] == if IsPhoneChar(c) then multiset(phone)[c] else 0
  {
    FilterIsSubsequence(phone, IsPhoneChar);
    FilterCounts(phone, IsPhoneChar, c);
  }

  lemma FormatPhoneIdempotent(phone: string)
    ensures FormatPhone(FormatPhone(phone)) == FormatPhone(phone)
  {
    FilterIdempotent(phone, IsPhoneChar);
  }

  /** A phone string comes back unchanged exactly when it has only allowed characters. */
  lemma FormatPhoneFixpoint(phone: string)
    ensures FormatPhone(phone) == phone <==> forall i :: 0 <= i < |phone| ==> IsPhoneChar(phone[i])
  {
    if forall i :: 0 <= i < |phone| ==> IsPhoneChar(phone[i]) {
      FilterKeepsAll(phone, IsPhoneChar);
    }
  }

  /** `formatAddress`: street, suite, city and zip code; `geo` is not used. */
  function FormatAddress(a: Address): (r: string)
    ensures |r| == |a.street| + |a.suite| + |a.city| + |a.zipcode| + 5
    ensures a.street <= r
  {
    a.street + ", " + a.suite + ", " + a.city + " " + a.zipcode
  }

  lemma FormatAddressIgnoresGeo(a: Address, g: Geo)
    ensures FormatAddress(a.(geo := g)) == FormatAddress(a)
  {
  }

  /** The text before the first `c` and the text after the `skip` characters
      that start there. */
  function SplitFirst(s: string, c: char, skip: nat): (string, string)
  {
    var i := IndexOf(s, c);
    (s[..i], if i + skip <= |s| then s[i + skip..] else [])
  }

  /** The text before the last `c` and the text after it. */
  function SplitLast(s: string, c: char): (string, string)
  {
    var k := LastIndexOf(s, c);
    (if k >= 0 then s[..k] else [], s[k + 1..])
  }

  lemma SplitFirstAppend(x: string, sep: string, y: string)
    requires sep != [] && sep[0] !in x
    ensures SplitFirst(x + sep + y, sep[0], |sep|) == (x, y)
  {
    assert x + sep + y == x + (sep + y);
    IndexOfAppend(x, sep + y, sep[0]);
    assert (x + sep + y)[..|x|] == x;
    assert (x + sep + y)[|x| + |sep|..] == y;
  }

  lemma SplitLastAppend(x: string, c: char, z: string)
    requires c !in z
    ensures SplitLast(x + [c] + z, c) == (x, z)
  {
    LastIndexOfAppend(x, c, z);
    assert (x + [c] + z)[..|x|] == x;
    assert (x + [c] + z)[|x| + 1..] == z;
  }

  /** Reads the four parts back from a formatted address: up to the first
      comma, up to the next comma, and the rest split at its last space. */
  function ParseAddress(s: string): (string, string, string, string)
  {
    var (street, rest) := SplitFirst(s, ',', 2);
    var (suite, tail) := SplitFirst(rest, ',', 2);
    var (city, zipcode) := SplitLast(tail, ' ');
    (street, suite, city, zipcode)
  }

  /** The address template loses nothing as long as street and suite have no
      comma and the zip code has no space. */
  lemma AddressRoundTrip(a: Address)
    requires ',' !in a.street && ',' !in a.suite && ' ' !in a.zipcode
    ensures ParseAddress(FormatAddress(a)) == (a.street, a.suite, a.city, a.zipcode)
  {
    var tail := a.city + " " + a.zipcode;
    var rest := a.suite + ", " + tail;
    assert FormatAddress(a) == a.street + ", " + rest;
    SplitFirstAppend(a.street, ", ", rest);
    SplitFirstAppend(a.suite, ", ", tail);
    SplitLastAppend(a.city, ' ', a.zipcode);
  }

  /** The URL `isValidUrl` hands to the URL parser: the input itself when it
      starts with `http`, otherwise the input behind `https://`. */
  function UrlCandidate(url: string): (r: string)
    ensures StartsWith(r, "http")
    ensures |url| <= |r| && r[|r| - |url|..] == url
    ensures r == url <==> StartsWith(url, "http")
  {
    if StartsWith(url, "http") then url else "https://" + url
  }
}
