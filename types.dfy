/** The persisted record shapes of the booking site (users, movies, screenings, bookings, snacks, line items, admins). */
module Types {
  import opened Wrappers

  /** A booking's status: one of three values; the booking path only ever writes `Confirmed`. */
  datatype BookingStatus = Pending | Confirmed | Cancelled

  /** A snack's catalogue category: one of four values. */
  datatype SnackCategory = Popcorn | Drinks | Candy | Combo

  datatype AdminRole = SuperAdmin | RegularAdmin

  /** Timestamps (`created_at`, `updated_at`, session expiry) are milliseconds since the epoch. */
  datatype User = User(
    userId: string, fullname: string, username: string, email: string, phone: string,
    password: string, createdAt: int)

  datatype Movie = Movie(
    movieId: string, movieName: string, movieLang: string, movieGenre: string, ratings: real,
    movieDescription: string, price: real, tax: real, netAmount: real,
    posterUrl: Option<string>, bannerUrl: Option<string>, duration: int, ageRating: string,
    createdAt: int, updatedAt: int)

  /** One showing of a movie, with its own seat counter and price multiplier. */
  datatype Screening = Screening(
    screeningId: string, movieId: string, date: string, time: string,
    availableSeats: int, totalSeats: int, priceModifier: real, createdAt: int)

  datatype Booking = Booking(
    bookingId: string, userId: string, screeningId: string, seatsBooked: int,
    bookingStatus: BookingStatus, totalAmount: real, snacksTotal: real,
    createdAt: int, updatedAt: int)

  datatype Snack = Snack(
    snackId: string, name: string, price: real, category: SnackCategory, available: bool,
    createdAt: int)

  /** A snack line item of a booking, with the unit price captured when it was written. */
  datatype BookingSnack = BookingSnack(bookingId: string, snackId: string, quantity: int, pricePerItem: real)

  datatype Admin = Admin(adminId: string, username: string, password: string, role: AdminRole, createdAt: int)

  datatype MovieWithScreenings = MovieWithScreenings(movie: Movie, screenings: seq<Screening>)

  /** One `{ snack_id, quantity }` entry of a booking request. */
  datatype SnackItem = SnackItem(snackId: string, quantity: int)

  /** The registration form's six fields, as strings. */
  datatype RegisterForm = RegisterForm(
    fullname: string, username: string, email: string, phone: string,
    password: string, confirmPassword: string)
}
