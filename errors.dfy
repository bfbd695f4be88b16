/**
 * The exceptions the services raise. Each `RuntimeException` message of the
 * services is one constructor; framework exceptions (a null reference, an
 * enum name that does not exist, a non-null column left null, a finder that
 * matches several rows, an entity constraint, an array index, a SQL cast)
 * are the remaining ones.
 */
module Errors {
  datatype Error =
    // ProgrammationService
    | CodeCoursObligatoire                // the course code is required
    | CodeSalleObligatoire                // the room code is required
    | ProgrammateurObligatoire            // the organizer is required
    | DatesObligatoires                   // both dates are required
    | DebutApresFin                       // the start must not be after the end
    | SalleOccupee                        // the room is taken for the window (create)
    | SalleIndisponible                   // the room is unavailable for the window (update)
    | SalleIntrouvable                    // no room with that code
    | CoursIntrouvable                    // no course with that code
    | ProgrammateurIntrouvable            // no staff member with the organizer code
    | ProgrammationIntrouvable            // no booking with that id
    | ProgrammationIntrouvableId(id: int) // no booking with that id, the id quoted in the message
    | ValidateurIntrouvable               // no staff member with the validator code
    // AffectationService
    | PersonnelNonTrouve(code: string)    // no staff member with that code, quoted
    | CoursNonTrouve(code: string)        // no course with that code, quoted
    | AffectationExisteDeja               // the assignment exists already
    | AffectationInexistante              // the assignment does not exist
    // SalleService and CourService
    | DonneeInvalide                      // invalid data (empty code, or a capacity under 10)
    | SalleIntrouvableCode(code: string)  // no room (or, in CourService, course) with that code, quoted
    // PersonnelService
    | LoginExisteDeja                     // the login is taken
    | TelephoneDejaUtilise                // the phone number is taken
    | PersonnelIntrouvable                // no staff member with that code
    | LoginIntrouvable                    // no staff member with that login
    | TelephoneIntrouvable                // no staff member with that phone number
    // raised by the language, the persistence layer or the database
    | NullPointer                   // NullPointerException
    | IllegalEnumName(name: string) // IllegalArgumentException of Enum.valueOf
    | NullIdentifier                // findById(null)
    | NullColumn                    // a non-optional column written as null
    | NonUniqueResult               // a single-result finder matched several rows
    | ConstraintViolation           // an entity's length constraint at persist time
    | ArrayIndexOutOfBounds         // element 0 of an empty array
    | InvalidCast                   // CAST of a text that is not an integer
    | DrawsExhausted                // the random draws supplied ran out before a free code came up
}
