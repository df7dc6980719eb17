/**
 * The few parts of a `Response` the handlers set: the status, the `Location` and
 * `Set-Cookie` headers, and a body that is either empty, a JSON object or the data a
 * page is rendered with.
 */
module Http {
  import opened Wrappers
  import opened Types

  datatype Body =
    | NoBody
    /** `{ error }` as JSON. */
    | ErrorJson(error: string)
    /** `{ success: true, booking_id, message }` as JSON. */
    | BookingJson(bookingId: string, message: string)
    /** The login page, with an optional error and the echoed user name. */
    | LoginPage(loginError: Option<string>, username: Option<string>)
    /** The registration page, with an optional error and the submitted form. */
    | RegisterPage(registerError: Option<string>, form: Option<RegisterForm>)

  datatype Response = Response(status: int, location: Option<string>, setCookie: Option<string>, body: Body)

  /** A 302 to `location` with no body. */
  function Redirect(location: string): Response {
    Response(302, Some(location), None, NoBody)
  }

  /** A JSON answer with the given status. */
  function Json(status: int, body: Body): Response {
    Response(status, None, None, body)
  }

  /** A page rendered with status 200. */
  function Page(body: Body): Response {
    Response(200, None, None, body)
  }
}
