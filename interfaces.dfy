/** The records exchanged between the HTTP client, the user service and the
    directory state: a user with its address and company, the success envelope
    and the uniform error. */
module Interfaces {
  import opened Wrappers

  datatype Geo = Geo(lat: string, lng: string)

  datatype Address = Address(street: string, suite: string, city: string, zipcode: string, geo: Geo)

  datatype Company = Company(name: string, catchPhrase: string, bs: string)

  /** A user record. `avatar` is the one field the service computes; every
      other field comes from the server. */
  datatype User = User(
    id: int,
    name: string,
    username: string,
    email: string,
    address: Address,
    phone: string,
    website: string,
    company: Company,
    avatar: string)

  /** The success envelope the service hands back. */
  datatype ApiResponse<T> = ApiResponse(data: T, status: int, message: Option<string>)

  /** The uniform shape every failed request is turned into. */
  datatype ApiError = ApiError(message: string, status: Option<int>, code: Option<string>)
}
