/** The authenticated user as the token service hands it to the controllers and the middleware. */
module Auth {

  /** `Auth::user()`: the fields of the users table that tenant binding reads.
      `clientId` names the user's tenant; 0 (the column default) means "no tenant". */
  datatype User = User(id: int, clientId: int)
}
