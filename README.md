# suivie_academique — a Dafny model of the scheduling back end

suivie_academique is the back end an academic department uses to book its
rooms. It keeps rooms (`Salle`), courses (`Cours`), staff (`Personnel`),
the assignment of staff to courses (`Affectation`) and room bookings
(`Programmation`). A booking is a course in a room over a time window. A
staff member organises it, and a second staff member later validates it.

This project models the services, repositories and mappers of that core,
the staff-code generator, the security principal built from a staff
record, and the request filter that fills the logging context. It proves
what each operation promises.

## How the model is built

- **Store.** The database is the value `Store.Db`:
  - rooms, courses and staff are maps keyed by their codes;
  - bookings are rows keyed by an integer id, holding the codes of their
    room, course, organiser and validator;
  - assignments are a set of keys;
  - a counter gives booking ids.

  `Store.RecordStore` is the class holding that state, and every
  state-changing service operation has two members:
  - a function `XOutcome(db, …)` giving the result and the new store;
  - a method `X(store, …)` that changes the object's fields and is proved
    to end in exactly that outcome.

  `Db.Valid()` holds the invariants the schema enforces:
  - each record sits under its own key;
  - non-optional columns are set;
  - course codes are 2 to 100 UTF-16 code units long, as Java's
    `String.length()` counts them;
  - every booking refers to an existing room, course and organiser (and
    validator, when it has one);
  - ids are below the counter.

  Every operation preserves it.
- **Transactions.** The services are transactional, so every failing
  operation leaves the store as it was. This is part of each outcome's
  contract.
- **Errors.** Every exception the code can raise on the paths modelled is
  a value of `Errors.Error`:
  - the service's own runtime exceptions, one constructor per message;
  - `valueOf` on an unknown name and a null name;
  - a non-unique result behind an `Optional` finder;
  - a null identifier given to `findById`;
  - a null value in a non-null column;
  - the bean-validation length constraint on course codes;
  - an integer cast of a text that is not an `int`, cast as the H2
    database does it;
  - index 0 of an empty array.
- **Query results.** The order of a result is left unspecified unless the
  query has `ORDER BY`, so those results are maps keyed by primary key.
  The two ordered queries return sequences and are proved sorted and
  complete.
- **Inputs from outside.**
  - The clock (`CURRENT_TIMESTAMP`, the current year) is a parameter.
  - The random numbers drawn by the code generator are a parameter: a
    finite sequence of draws.
  - The password encoder is a function parameter.
- **Booking updates.** The persistence context flushes a modified
  record before running a query on its table. So in `updateProgrammation`
  the availability query sees the edited booking already carrying its new
  times, with its old room still in place. An update that keeps the
  booking's room therefore always conflicts with itself
  (`ProgrammationService.UpdateInSameRoomConflicts`). A null date fails at
  that flush, before the query runs. `ProgrammationService.UpdateProgrammation`
  writes the new times before the query and restores the row when a later
  step fails.
- **Messages.** `deleteCours` reports an unknown course with the room
  message ("Salle introuvable avec le code: …"). The model keeps that:
  `SalleIntrouvableCode(code)`.

## Model

| member | source | states |
|---|---|---|
| Enums.StatutValueOf | src/main/java/com/suivie_academique/suivie_academique/services/ProgrammationService.java:134 | `valueOf` on the booking status: the constant whose name is exactly the text, none otherwise |
| Enums.SalleStatusValueOf | src/main/java/com/suivie_academique/suivie_academique/services/SalleService.java:103 | `valueOf` on the room status: exact name match, none otherwise |
| Enums.RoleValueOf | src/main/java/com/suivie_academique/suivie_academique/mappers/PersonnelMapper.java:67 | `valueOf` on the staff role: exact name match, none otherwise |
| Enums.StatutFromName | src/main/java/com/suivie_academique/suivie_academique/services/ProgrammationService.java:134 | null status text is a null-pointer failure; a known name gives exactly that status; an unknown one an illegal-name error quoting it |
| Enums.SalleStatusFromName | src/main/java/com/suivie_academique/suivie_academique/services/SalleService.java:164 | the same three cases for the room status |
| Enums.RoleFromName | src/main/java/com/suivie_academique/suivie_academique/services/PersonnelService.java:70 | the same three cases for the staff role |
| Entities.AffectationIdEquality | src/main/java/com/suivie_academique/suivie_academique/entities/AffectationId.java:22-30 | two assignment keys are equal exactly when both course and staff codes are |
| Text.Trim | src/main/java/com/suivie_academique/suivie_academique/logging/LoggingContextFilter.java:46 | `trim` gives a contiguous piece of the text with no character up to U+0020 at either end, every character cut off on either side being one up to U+0020 |
| Text.TrimStart | src/main/java/com/suivie_academique/suivie_academique/logging/LoggingContextFilter.java:46 | the forward scan of `trim` stops at the first character above U+0020 (or the end), having passed only characters up to U+0020 |
| Text.TrimEnd | src/main/java/com/suivie_academique/suivie_academique/logging/LoggingContextFilter.java:46 | the backward scan of `trim` stops just after the last character above U+0020 (or at the start index), having passed only characters up to U+0020 |
| Text.FirstField | src/main/java/com/suivie_academique/suivie_academique/logging/LoggingContextFilter.java:46 | the text before the first comma: a prefix of the input, comma-free, followed by a comma or the end |
| Text.Fields | src/main/java/com/suivie_academique/suivie_academique/logging/LoggingContextFilter.java:46 | splitting at every comma gives at least one field and no field holds a comma |
| Text.FieldsFirst | src/main/java/com/suivie_academique/suivie_academique/logging/LoggingContextFilter.java:46 | the first field of the split is the text before the first comma |
| Text.FieldsAllEmpty | src/main/java/com/suivie_academique/suivie_academique/logging/LoggingContextFilter.java:46 | every field is empty exactly when the text is made of commas only |
| Text.DropTrailingEmpty | src/main/java/com/suivie_academique/suivie_academique/logging/LoggingContextFilter.java:46 | `split` drops exactly the trailing empty fields: the result is a prefix, ends in a non-empty field, and only empty fields were dropped |
| Text.Split | src/main/java/com/suivie_academique/suivie_academique/logging/LoggingContextFilter.java:46 | no element of `split(",")` holds a comma |
| Text.SplitFirst | src/main/java/com/suivie_academique/suivie_academique/logging/LoggingContextFilter.java:46 | `split` returns no element exactly for a non-empty all-comma text; otherwise element 0 is the text before the first comma |
| Text.DigitChar | src/main/java/com/suivie_academique/suivie_academique/utils/CodeGenerator.java:30 | the character of a decimal digit has that digit's value |
| Text.NatToString | src/main/java/com/suivie_academique/suivie_academique/utils/CodeGenerator.java:30 | the decimal text of a natural number is non-empty, all digits, without a leading zero |
| Text.IntToString | src/main/java/com/suivie_academique/suivie_academique/utils/CodeGenerator.java:30 | Java's decimal rendering of an integer starts with a minus sign exactly when the integer is negative |
| Text.ParseInt | src/main/java/com/suivie_academique/suivie_academique/repositories/CoursRepository.java:34 | H2's integer cast, `Integer.parseInt` of the trimmed text: it succeeds exactly when the trimmed text is an optional sign then one or more digits whose value lies in the 32-bit range, and then gives that value |
| Text.SignedPaddedText | src/main/java/com/suivie_academique/suivie_academique/repositories/CoursRepository.java:34 | the cast accepts a plus sign and surrounding blanks: " +45 " is 45 |
| Text.OutOfRangeFails | src/main/java/com/suivie_academique/suivie_academique/repositories/CoursRepository.java:34 | a value one above the largest `int` is a cast error |
| Text.NatToStringValue | src/main/java/com/suivie_academique/suivie_academique/utils/CodeGenerator.java:30 | reading back the digits of a natural gives the natural |
| Text.ParseIntToString | src/main/java/com/suivie_academique/suivie_academique/utils/CodeGenerator.java:30 | the integer cast of the decimal text of any 32-bit integer gives the integer back |
| Text.HoursFixtureIsNotAnInteger | src/main/java/com/suivie_academique/suivie_academique/repositories/CoursRepository.java:34 | the hour text "45H" does not cast to an integer |
| SalleMapper.EnumToString | src/main/java/com/suivie_academique/suivie_academique/mappers/SalleMapper.java:66-69 | null stays null; a status becomes its name |
| SalleMapper.StringToEnum | src/main/java/com/suivie_academique/suivie_academique/mappers/SalleMapper.java:74-77 | null stays null; a known name gives that status; an unknown name fails with an illegal-name error quoting it |
| SalleMapper.StatusRoundTrip | src/main/java/com/suivie_academique/suivie_academique/mappers/SalleMapper.java:66-77 | name-to-status undoes status-to-name, null included |
| SalleMapper.NameRoundTrip | src/main/java/com/suivie_academique/suivie_academique/mappers/SalleMapper.java:66-77 | status-to-name undoes every accepted name-to-status |
| SalleMapper.ToDto | src/main/java/com/suivie_academique/suivie_academique/mappers/SalleMapper.java:32-34 | code, capacity, description (from `descSalle`) and status name are copied into the view |
| SalleMapper.ToEntity | src/main/java/com/suivie_academique/suivie_academique/mappers/SalleMapper.java:42-45 | mapping fails exactly when the status name is unknown; otherwise each field comes back under its entity name |
| SalleMapper.DtoRoundTrip | src/main/java/com/suivie_academique/suivie_academique/mappers/SalleMapper.java:32-45 | a view with a valid status maps to an entity whose view is that view |
| SalleMapper.EntityRoundTrip | src/main/java/com/suivie_academique/suivie_academique/mappers/SalleMapper.java:32-45 | the view of any room maps back to the same room |
| SalleMapper.ToDtoList | src/main/java/com/suivie_academique/suivie_academique/mappers/SalleMapper.java:53 | element-wise view of a list, same length |
| SalleMapper.ToEntityList | src/main/java/com/suivie_academique/suivie_academique/mappers/SalleMapper.java:61 | element-wise mapping that fails exactly when some element fails, with the error of the first element that fails |
| CoursMapper.ToDto | src/main/java/com/suivie_academique/suivie_academique/mappers/CoursMapper.java:27 | the five course fields are copied |
| CoursMapper.ToEntity | src/main/java/com/suivie_academique/suivie_academique/mappers/CoursMapper.java:35-36 | the five course fields are copied back |
| CoursMapper.RoundTrips | src/main/java/com/suivie_academique/suivie_academique/mappers/CoursMapper.java:27-36 | view and entity mappings are mutual inverses |
| CoursMapper.ToDtoList | src/main/java/com/suivie_academique/suivie_academique/mappers/CoursMapper.java:44 | element-wise view of a list, same length |
| CoursMapper.ToEntityList | src/main/java/com/suivie_academique/suivie_academique/mappers/CoursMapper.java:52 | element-wise mapping of a list, same length |
| CoursMapper.ListRoundTrip | src/main/java/com/suivie_academique/suivie_academique/mappers/CoursMapper.java:44-52 | the list mappings are inverse too |
| PersonnelMapper.RoleToString | src/main/java/com/suivie_academique/suivie_academique/mappers/PersonnelMapper.java:57-60 | null stays null; a role becomes its name |
| PersonnelMapper.StringToRole | src/main/java/com/suivie_academique/suivie_academique/mappers/PersonnelMapper.java:65-68 | null stays null; a known name gives that role; an unknown name fails quoting it |
| PersonnelMapper.RoleRoundTrip | src/main/java/com/suivie_academique/suivie_academique/mappers/PersonnelMapper.java:57-68 | name-to-role undoes role-to-name |
| PersonnelMapper.ToDto | src/main/java/com/suivie_academique/suivie_academique/mappers/PersonnelMapper.java:30-31 | code, name, login, sex, phone and role name are copied; the hash is not part of the view |
| PersonnelMapper.ViewHidesPassword | src/main/java/com/suivie_academique/suivie_academique/mappers/PersonnelMapper.java:30-31 | two staff records that differ only in their hash have the same view |
| PersonnelMapper.ToEntity | src/main/java/com/suivie_academique/suivie_academique/mappers/PersonnelMapper.java:40-44 | fails exactly on an unknown role name; otherwise copies the fields and leaves the hash null |
| PersonnelMapper.DtoRoundTrip | src/main/java/com/suivie_academique/suivie_academique/mappers/PersonnelMapper.java:30-44 | a view with a valid role maps to an entity whose view is that view |
| PersonnelMapper.EntityRoundTrip | src/main/java/com/suivie_academique/suivie_academique/mappers/PersonnelMapper.java:30-44 | the view of a staff record maps back to that record with its hash dropped |
| PersonnelMapper.ToDtoList | src/main/java/com/suivie_academique/suivie_academique/mappers/PersonnelMapper.java:52 | element-wise view of a list, same length |
| AffectationMapper.ToDto | src/main/java/com/suivie_academique/suivie_academique/mappers/AffectationMapper.java:21-25 | the view takes the key and the codes and names of the staff member and course, null where the reference is missing |
| AffectationMapper.ToEntity | src/main/java/com/suivie_academique/suivie_academique/mappers/AffectationMapper.java:31-34 | key, staff and course are ignored, so the entity has none of them |
| AffectationMapper.AssembledViewAgrees | src/main/java/com/suivie_academique/suivie_academique/mappers/AffectationMapper.java:21-25 | an assignment built from a staff member and a course shows their codes, name and label |
| AffectationMapper.ToDtoList | src/main/java/com/suivie_academique/suivie_academique/mappers/AffectationMapper.java:39 | element-wise view of a list, same length |
| ProgrammationMapper.StatutToString | src/main/java/com/suivie_academique/suivie_academique/mappers/ProgrammationMapper.java:67-70 | null stays null; a status becomes its name |
| ProgrammationMapper.StringToStatut | src/main/java/com/suivie_academique/suivie_academique/mappers/ProgrammationMapper.java:75-78 | null stays null; a known name gives that status; an unknown name fails quoting it |
| ProgrammationMapper.StatusRoundTrip | src/main/java/com/suivie_academique/suivie_academique/mappers/ProgrammationMapper.java:67-78 | name-to-status undoes status-to-name |
| ProgrammationMapper.NameRoundTrip | src/main/java/com/suivie_academique/suivie_academique/mappers/ProgrammationMapper.java:67-78 | status-to-name undoes every accepted name-to-status |
| ProgrammationMapper.UnknownNameFails | src/main/java/com/suivie_academique/suivie_academique/mappers/ProgrammationMapper.java:75-78 | a status name outside the enumeration, such as EN_COURS, is refused |
| ProgrammationMapper.ToDto | src/main/java/com/suivie_academique/suivie_academique/mappers/ProgrammationMapper.java:31-39 | the view copies id, hours, times and status name, and takes code and name of room, course, organiser and validator, null where the reference is missing |
| ProgrammationMapper.ToEntity | src/main/java/com/suivie_academique/suivie_academique/mappers/ProgrammationMapper.java:49-54 | fails exactly on an unknown status name; otherwise copies id, hours, times and status and leaves every reference empty |
| ProgrammationMapper.DtoRoundTrip | src/main/java/com/suivie_academique/suivie_academique/mappers/ProgrammationMapper.java:31-54 | on a view with a valid status, mapping to an entity and back keeps id, hours, times and status |
| ProgrammationMapper.ToDtoList | src/main/java/com/suivie_academique/suivie_academique/mappers/ProgrammationMapper.java:62 | element-wise view of a list, same length |
| SalleRepository.ExistsByContenance | src/main/java/com/suivie_academique/suivie_academique/repositories/SalleRepository.java:23 | true exactly when some room has that capacity |
| SalleRepository.FindByContenanceGreaterThanEqual | src/main/java/com/suivie_academique/suivie_academique/repositories/SalleRepository.java:29 | exactly the rooms with at least that capacity |
| SalleRepository.FindByCodeSalleContaining | src/main/java/com/suivie_academique/suivie_academique/repositories/SalleRepository.java:35 | exactly the rooms whose code contains the fragment |
| SalleRepository.FindByStatutSalle | src/main/java/com/suivie_academique/suivie_academique/repositories/SalleRepository.java:41 | exactly the rooms with that status |
| SalleRepository.FindSallesLibres | src/main/java/com/suivie_academique/suivie_academique/repositories/SalleRepository.java:47-48 | exactly the free rooms |
| SalleRepository.FindSallesOccupees | src/main/java/com/suivie_academique/suivie_academique/repositories/SalleRepository.java:54-55 | exactly the occupied rooms |
| SalleRepository.CountByStatut | src/main/java/com/suivie_academique/suivie_academique/repositories/SalleRepository.java:61-62 | the number of rooms with the status |
| SalleRepository.FindByContenanceBetween | src/main/java/com/suivie_academique/suivie_academique/repositories/SalleRepository.java:68 | exactly the rooms with capacity in [min, max] |
| SalleRepository.SearchSalles | src/main/java/com/suivie_academique/suivie_academique/repositories/SalleRepository.java:74-82 | each null criterion is dropped; a room matches when it meets every given one |
| SalleRepository.FindSallesLibresAvecContenance | src/main/java/com/suivie_academique/suivie_academique/repositories/SalleRepository.java:88-89 | exactly the free rooms with at least that capacity |
| SalleRepository.SearchWithoutCriteria | src/main/java/com/suivie_academique/suivie_academique/repositories/SalleRepository.java:74-82 | with no criterion the search returns every room |
| SalleRepository.QueriesAreSearches | src/main/java/com/suivie_academique/suivie_academique/repositories/SalleRepository.java:29-89 | the capacity and status queries agree with the equivalent criteria search |
| SalleRepository.FixedStatusQueries | src/main/java/com/suivie_academique/suivie_academique/repositories/SalleRepository.java:41-55 | the free and occupied queries are the status query for LIBRE and OCCUPE |
| CoursRepository.FindByLabelCoursContaining | src/main/java/com/suivie_academique/suivie_academique/repositories/CoursRepository.java:22 | exactly the courses whose label contains the text |
| CoursRepository.FindByNbCreditCours | src/main/java/com/suivie_academique/suivie_academique/repositories/CoursRepository.java:28 | exactly the courses with that credit text |
| CoursRepository.CountByCredits | src/main/java/com/suivie_academique/suivie_academique/repositories/CoursRepository.java:41-42 | the number of courses with that credit text |
| CoursRepository.SearchCours | src/main/java/com/suivie_academique/suivie_academique/repositories/CoursRepository.java:48-51 | exactly the courses whose label or description contains the keyword |
| CoursRepository.SearchCoursCoversLabelSearch | src/main/java/com/suivie_academique/suivie_academique/repositories/CoursRepository.java:22-51 | every label match is a keyword-search match |
| CoursRepository.ExistsByLabelCours | src/main/java/com/suivie_academique/suivie_academique/repositories/CoursRepository.java:64 | true exactly when some course has that label |
| CoursRepository.FindCoursAvecNbHeuresMin | src/main/java/com/suivie_academique/suivie_academique/repositories/CoursRepository.java:34-35 | fails with a cast error exactly when some hour text is not an integer; otherwise the courses with at least that many hours |
| CoursRepository.FindAllOrderByNbHeuresDesc | src/main/java/com/suivie_academique/suivie_academique/repositories/CoursRepository.java:57-58 | fails with a cast error exactly when some hour text is not an integer; otherwise every course once, by non-increasing hours |
| CoursRepository.HoursFixtureBreaksHourQueries | src/main/java/com/suivie_academique/suivie_academique/repositories/CoursRepository.java:34-58 | one course with hours "45H" makes both hour queries fail |
| PersonnelRepository.SearchByName | src/main/java/com/suivie_academique/suivie_academique/repositories/PersonnelRepository.java:28-29 | exactly the staff whose name contains the token |
| PersonnelRepository.CountBySexe | src/main/java/com/suivie_academique/suivie_academique/repositories/PersonnelRepository.java:37-38 | the number of staff of that sex, at most the number of staff |
| PersonnelRepository.FindByRolePersonnel | src/main/java/com/suivie_academique/suivie_academique/repositories/PersonnelRepository.java:44 | exactly the staff with that role |
| PersonnelRepository.CountByRole | src/main/java/com/suivie_academique/suivie_academique/repositories/PersonnelRepository.java:68-69 | the number of staff with that role |
| PersonnelRepository.FindAllEnseignants | src/main/java/com/suivie_academique/suivie_academique/repositories/PersonnelRepository.java:75-76 | exactly the teachers |
| PersonnelRepository.FindAllResponsablesAcademiques | src/main/java/com/suivie_academique/suivie_academique/repositories/PersonnelRepository.java:82-83 | exactly the academic managers |
| PersonnelRepository.FindAllResponsablesPersonnel | src/main/java/com/suivie_academique/suivie_academique/repositories/PersonnelRepository.java:89-90 | exactly the staff managers |
| PersonnelRepository.RoleListingsAreRoleFilters | src/main/java/com/suivie_academique/suivie_academique/repositories/PersonnelRepository.java:44-90 | the three fixed-role queries equal the role query for their role |
| PersonnelRepository.FindByLoginPersonnel | src/main/java/com/suivie_academique/suivie_academique/repositories/PersonnelRepository.java:50 | empty exactly when no staff has the login; a non-unique-result failure exactly when more than one has; otherwise a staff member with that login |
| PersonnelRepository.ExistsByLoginPersonnel | src/main/java/com/suivie_academique/suivie_academique/repositories/PersonnelRepository.java:56 | true exactly when some staff member has the login |
| PersonnelRepository.ExistsIffFound | src/main/java/com/suivie_academique/suivie_academique/repositories/PersonnelRepository.java:50-56 | the exists query agrees with the finder, and a unique holder is what the finder returns |
| PersonnelRepository.FindByPhonePersonnel | src/main/java/com/suivie_academique/suivie_academique/repositories/PersonnelRepository.java:62 | empty exactly when no staff has the phone; non-unique failure when several have; otherwise a holder |
| AffectationRepository.FindByPersonnel | src/main/java/com/suivie_academique/suivie_academique/repositories/AffectationRepository.java:23-24 | exactly the assignments of that staff member |
| AffectationRepository.FindByCours | src/main/java/com/suivie_academique/suivie_academique/repositories/AffectationRepository.java:30-31 | exactly the assignments of that course |
| AffectationRepository.CountByPersonnel | src/main/java/com/suivie_academique/suivie_academique/repositories/AffectationRepository.java:36-37 | the number of assignments of that staff member |
| AffectationRepository.CountByCours | src/main/java/com/suivie_academique/suivie_academique/repositories/AffectationRepository.java:42-43 | the number of assignments of that course |
| ProgrammationRepository.FindByStatutProgrammation | src/main/java/com/suivie_academique/suivie_academique/repositories/ProgrammationRepository.java:24 | exactly the bookings with that status |
| ProgrammationRepository.FindBySalle | src/main/java/com/suivie_academique/suivie_academique/repositories/ProgrammationRepository.java:30-31 | exactly the bookings of that room |
| ProgrammationRepository.FindByCours | src/main/java/com/suivie_academique/suivie_academique/repositories/ProgrammationRepository.java:37-38 | exactly the bookings of that course |
| ProgrammationRepository.FindByPersonnel | src/main/java/com/suivie_academique/suivie_academique/repositories/ProgrammationRepository.java:44-45 | exactly the bookings made by that organiser |
| ProgrammationRepository.FindByValidateur | src/main/java/com/suivie_academique/suivie_academique/repositories/ProgrammationRepository.java:51-52 | exactly the bookings validated by that staff member; none without a validator |
| ProgrammationRepository.FindByDateRange | src/main/java/com/suivie_academique/suivie_academique/repositories/ProgrammationRepository.java:58-63 | exactly the bookings lying within [debut, fin] |
| ProgrammationRepository.FindEnAttenteValidation | src/main/java/com/suivie_academique/suivie_academique/repositories/ProgrammationRepository.java:92-94 | exactly the bookings with status PROGRAMMER and no validator |
| ProgrammationRepository.ValidatedNotPending | src/main/java/com/suivie_academique/suivie_academique/repositories/ProgrammationRepository.java:92-94 | a booking with a validator, or not PROGRAMMER, is not pending |
| ProgrammationRepository.CountByStatut | src/main/java/com/suivie_academique/suivie_academique/repositories/ProgrammationRepository.java:85-86 | the number of bookings with the status |
| ProgrammationRepository.IsSalleDisponible | src/main/java/com/suivie_academique/suivie_academique/repositories/ProgrammationRepository.java:70-79 | true exactly when no booking of the room meets one of the three overlap clauses with the window; a null room matches no booking |
| ProgrammationRepository.ConflitsEmpty | src/main/java/com/suivie_academique/suivie_academique/repositories/ProgrammationRepository.java:70-79 | the room is free exactly when the set of its conflicting bookings is empty |
| ProgrammationRepository.ChevaucheIsIntersection | src/main/java/com/suivie_academique/suivie_academique/repositories/ProgrammationRepository.java:72-74 | for well-ordered intervals the three clauses are closed-interval intersection |
| ProgrammationRepository.BackwardsBookingConflicts | src/main/java/com/suivie_academique/suivie_academique/repositories/ProgrammationRepository.java:72-74 | a stored booking whose start is after its end still conflicts with a window inside it |
| ProgrammationRepository.TouchingBookingConflicts | src/main/java/com/suivie_academique/suivie_academique/repositories/ProgrammationRepository.java:72-74 | a booking that only touches the window at an instant makes the room unavailable |
| ProgrammationRepository.OtherRoomsIgnored | src/main/java/com/suivie_academique/suivie_academique/repositories/ProgrammationRepository.java:70-79 | availability depends only on the bookings of the room asked about |
| ProgrammationRepository.EmptyRoomAvailable | src/main/java/com/suivie_academique/suivie_academique/repositories/ProgrammationRepository.java:70-79 | a room with no booking, or a null room, is available |
| ProgrammationRepository.FindProgrammationsFutures | src/main/java/com/suivie_academique/suivie_academique/repositories/ProgrammationRepository.java:108-110 | every booking starting at or after now appears once, in non-decreasing order of start |
| CodeGenerator.Prefix | src/main/java/com/suivie_academique/suivie_academique/utils/CodeGenerator.java:18-24 | ENS, RA, RD and RP for the four role names, XX for any other text |
| CodeGenerator.Candidate | src/main/java/com/suivie_academique/suivie_academique/utils/CodeGenerator.java:30 | the candidate code starts with the prefix |
| CodeGenerator.FirstFree | src/main/java/com/suivie_academique/suivie_academique/utils/CodeGenerator.java:28-35 | fails exactly when every drawn candidate is taken; otherwise the code of the first draw whose candidate is free |
| CodeGenerator.GenerateCode | src/main/java/com/suivie_academique/suivie_academique/utils/CodeGenerator.java:16-36 | a null role fails at the switch; otherwise the first free candidate for the role's prefix |
| CodeGenerator.GeneratedCodeShape | src/main/java/com/suivie_academique/suivie_academique/utils/CodeGenerator.java:16-36 | a generated code is free and reads prefix, year, then a number in [1000, 100000) |
| CodeGenerator.Generate | src/main/java/com/suivie_academique/suivie_academique/utils/CodeGenerator.java:16-36 | the loop over the draws returns what `GenerateCode` specifies for the current staff codes |
| SalleService.CreerSalleOutcome | src/main/java/com/suivie_academique/suivie_academique/services/SalleService.java:39-55 | errors in order: unknown status, null code, empty code or capacity under 10, null status; on success the room is stored under its code and the view is the request |
| SalleService.CapacityBoundary | src/main/java/com/suivie_academique/suivie_academique/services/SalleService.java:45-46 | capacity 10 is accepted and 9 is refused |
| SalleService.GetSalleByCode | src/main/java/com/suivie_academique/suivie_academique/services/SalleService.java:79-86 | the view of the room, or an error quoting the code |
| SalleService.CreatedRoomIsFound | src/main/java/com/suivie_academique/suivie_academique/services/SalleService.java:39-86 | a created room is found under its code with the view creation returned |
| SalleService.GetAllSalles | src/main/java/com/suivie_academique/suivie_academique/services/SalleService.java:64-70 | the view of every room |
| SalleService.UpdateSalleOutcome | src/main/java/com/suivie_academique/suivie_academique/services/SalleService.java:95-110 | unknown code, then status through valueOf; on success description, capacity and status are replaced and the capacity is not checked |
| SalleService.UpdateAllowsSmallRoom | src/main/java/com/suivie_academique/suivie_academique/services/SalleService.java:95-110 | an update can set a capacity that creation refuses |
| SalleService.DeleteSalleOutcome | src/main/java/com/suivie_academique/suivie_academique/services/SalleService.java:117-129 | an unknown code fails; otherwise the room and all its bookings are removed |
| SalleService.RechercherSallesLibres | src/main/java/com/suivie_academique/suivie_academique/services/SalleService.java:138-144 | the free rooms with at least the capacity |
| SalleService.RechercherParCode | src/main/java/com/suivie_academique/suivie_academique/services/SalleService.java:152-155 | the rooms whose code contains the fragment |
| SalleService.RechercherParStatut | src/main/java/com/suivie_academique/suivie_academique/services/SalleService.java:163-167 | the status goes through valueOf, then exactly the rooms with it |
| SalleService.RechercheAvancee | src/main/java/com/suivie_academique/suivie_academique/services/SalleService.java:177-183 | a null status is no criterion, an unknown one fails; then the criteria search |
| SalleService.AdvancedSearchWithoutCriteria | src/main/java/com/suivie_academique/suivie_academique/services/SalleService.java:177-183 | no criterion lists every room |
| SalleService.CompterParStatut | src/main/java/com/suivie_academique/suivie_academique/services/SalleService.java:191-194 | the number of rooms the status search lists, failing as it does |
| SalleService.CreerSalle | src/main/java/com/suivie_academique/suivie_academique/services/SalleService.java:39-55 | on the store: result and new state are those of `CreerSalleOutcome` |
| SalleService.UpdateSalle | src/main/java/com/suivie_academique/suivie_academique/services/SalleService.java:95-110 | on the store: result and new state are those of `UpdateSalleOutcome` |
| SalleService.DeleteSalle | src/main/java/com/suivie_academique/suivie_academique/services/SalleService.java:117-129 | on the store: result and new state are those of `DeleteSalleOutcome` |
| CourService.CreerCourOutcome | src/main/java/com/suivie_academique/suivie_academique/services/CourService.java:25-41 | null code, then empty code, then a code outside 2..100 UTF-16 code units at save; on success the course is stored under its code and the view is the request |
| CourService.OneCharacterCodeFailsAtSave | src/main/java/com/suivie_academique/suivie_academique/services/CourService.java:25-41 | a code of one UTF-16 code unit passes the emptiness check and fails the length constraint |
| CourService.SupplementaryCharacterCodeIsSaved | src/main/java/com/suivie_academique/suivie_academique/entities/Cours.java:27 | a code of a single supplementary character is two code units long and is saved |
| Text.Utf16Length | src/main/java/com/suivie_academique/suivie_academique/entities/Cours.java:27 | the length `@Length` measures: between the number of characters and twice it, and equal to it exactly when no character is supplementary |
| Text.SupplementaryCharacterLength | src/main/java/com/suivie_academique/suivie_academique/entities/Cours.java:27 | U+1D538 alone is two code units long |
| CourService.GetAllCours | src/main/java/com/suivie_academique/suivie_academique/services/CourService.java:50-56 | the view of every course |
| CourService.CreatedCourseIsListed | src/main/java/com/suivie_academique/suivie_academique/services/CourService.java:25-56 | a created course is listed with its view |
| CourService.DeleteCoursOutcome | src/main/java/com/suivie_academique/suivie_academique/services/CourService.java:58-65 | an unknown code fails; otherwise the course and its bookings are removed |
| CourService.CreerCour | src/main/java/com/suivie_academique/suivie_academique/services/CourService.java:25-41 | on the store: as `CreerCourOutcome` |
| CourService.DeleteCours | src/main/java/com/suivie_academique/suivie_academique/services/CourService.java:58-65 | on the store: as `DeleteCoursOutcome` |
| AffectationService.CreateAffectationOutcome | src/main/java/com/suivie_academique/suivie_academique/services/AffectationService.java:31-52 | errors in order: null staff code (findById(null)), unknown staff, null course code, unknown course, existing assignment; on success the key is added and the view shows both codes, the name and the label |
| AffectationService.CreateTwice | src/main/java/com/suivie_academique/suivie_academique/services/AffectationService.java:44-46 | creating the same assignment again fails |
| AffectationService.DeleteAffectationOutcome | src/main/java/com/suivie_academique/suivie_academique/services/AffectationService.java:57-63 | fails exactly when the assignment does not exist; otherwise removes exactly it |
| AffectationService.CreateThenDeleteRestores | src/main/java/com/suivie_academique/suivie_academique/services/AffectationService.java:31-63 | deleting a new assignment gives the store back |
| AffectationService.GetAffectationsByPersonnel | src/main/java/com/suivie_academique/suivie_academique/services/AffectationService.java:68-71 | exactly the assignments of the staff member, as views |
| AffectationService.GetAffectationsByCours | src/main/java/com/suivie_academique/suivie_academique/services/AffectationService.java:76-79 | exactly the assignments of the course, as views |
| AffectationService.CountsAreListingSizes | src/main/java/com/suivie_academique/suivie_academique/services/AffectationService.java:84-93 | the counts equal the sizes of the two listings |
| AffectationService.FindAll | src/main/java/com/suivie_academique/suivie_academique/services/AffectationService.java:98-101 | the view of every assignment, showing the codes of its existing staff member and course |
| AffectationService.CreateAffectation | src/main/java/com/suivie_academique/suivie_academique/services/AffectationService.java:31-52 | on the store: as `CreateAffectationOutcome` |
| AffectationService.DeleteAffectation | src/main/java/com/suivie_academique/suivie_academique/services/AffectationService.java:57-63 | on the store: as `DeleteAffectationOutcome` |
| PersonnelService.CreerPersonnelOutcome | src/main/java/com/suivie_academique/suivie_academique/services/PersonnelService.java:29-56 | taken login, then a taken phone with one holder, or several holders of the phone (non-unique result), then generation, then mapping; on success a fresh code, the encoded password and the mapped fields are stored and the view of the stored record is returned |
| PersonnelService.CreatedViewIsRequest | src/main/java/com/suivie_academique/suivie_academique/services/PersonnelService.java:29-56 | the returned view is the request with the generated code |
| PersonnelService.CreationKeepsContactsUnique | src/main/java/com/suivie_academique/suivie_academique/services/PersonnelService.java:29-56 | creation keeps logins and phones unique among staff |
| PersonnelService.InvalidRoleStoresNothing | src/main/java/com/suivie_academique/suivie_academique/services/PersonnelService.java:43-46 | an unknown role name gets an XX code and then fails in the mapper, storing nothing |
| PersonnelService.UpdatePersonnelOutcome | src/main/java/com/suivie_academique/suivie_academique/services/PersonnelService.java:61-75 | unknown code, then role through valueOf; on success name, login, sex, phone and role are replaced and code and hash kept |
| PersonnelService.UpdateCanDuplicateLogin | src/main/java/com/suivie_academique/suivie_academique/services/PersonnelService.java:61-75 | an update does not check that the login is free |
| PersonnelService.DeletePersonnelOutcome | src/main/java/com/suivie_academique/suivie_academique/services/PersonnelService.java:80-85 | an unknown code fails; otherwise the staff member and every booking they organised or validated are removed |
| PersonnelService.RechercherParNom | src/main/java/com/suivie_academique/suivie_academique/services/PersonnelService.java:90-94 | the staff whose name contains the token, as views |
| PersonnelService.GetByLogin | src/main/java/com/suivie_academique/suivie_academique/services/PersonnelService.java:99-104 | login not found, or several holders, or the view of the holder |
| PersonnelService.GetByPhone | src/main/java/com/suivie_academique/suivie_academique/services/PersonnelService.java:109-113 | phone not found, or several holders, or the view of the holder |
| PersonnelService.GetByRole | src/main/java/com/suivie_academique/suivie_academique/services/PersonnelService.java:118-122 | the role goes through valueOf, then exactly the staff with it |
| PersonnelService.GetEnseignants | src/main/java/com/suivie_academique/suivie_academique/services/PersonnelService.java:127-131 | exactly the teachers, as views |
| PersonnelService.GetResponsablesAcademiques | src/main/java/com/suivie_academique/suivie_academique/services/PersonnelService.java:136-140 | exactly the academic managers, as views |
| PersonnelService.GetResponsablesPersonnel | src/main/java/com/suivie_academique/suivie_academique/services/PersonnelService.java:145-149 | exactly the staff managers, as views |
| PersonnelService.RoleListingsAreGetByRole | src/main/java/com/suivie_academique/suivie_academique/services/PersonnelService.java:118-149 | the three fixed listings are the role listing for their role |
| PersonnelService.CountByRoleName | src/main/java/com/suivie_academique/suivie_academique/services/PersonnelService.java:161-163 | the size of the role listing, failing as it does |
| PersonnelService.GetAll | src/main/java/com/suivie_academique/suivie_academique/services/PersonnelService.java:168-172 | the view of every staff member, each under its own code |
| PersonnelService.CreerPersonnel | src/main/java/com/suivie_academique/suivie_academique/services/PersonnelService.java:29-56 | on the store: as `CreerPersonnelOutcome` |
| PersonnelService.UpdatePersonnel | src/main/java/com/suivie_academique/suivie_academique/services/PersonnelService.java:61-75 | on the store: as `UpdatePersonnelOutcome` |
| PersonnelService.DeletePersonnel | src/main/java/com/suivie_academique/suivie_academique/services/PersonnelService.java:80-85 | on the store: as `DeletePersonnelOutcome` |
| ProgrammationService.ViewShowsRow | src/main/java/com/suivie_academique/suivie_academique/mappers/ProgrammationMapper.java:31-39 | the view of a stored booking shows its id, times, status and the codes of its references |
| ProgrammationService.CreerProgrammationOutcome | src/main/java/com/suivie_academique/suivie_academique/services/ProgrammationService.java:30-99 | the five simple checks in order, then availability, then mapping, then the room, course and organiser lookups; on success a new booking with the next id, status PROGRAMMER and no validator |
| ProgrammationService.CreatedBooking | src/main/java/com/suivie_academique/suivie_academique/services/ProgrammationService.java:30-99 | the new booking's view has the sent codes and times, PROGRAMMER and no validator, is pending, and overlaps no earlier booking of its room |
| ProgrammationService.CreatedBookingIsFound | src/main/java/com/suivie_academique/suivie_academique/services/ProgrammationService.java:30-99 | the new booking is found under its id with the view creation returned |
| ProgrammationService.UnknownRoomFailsAtLookup | src/main/java/com/suivie_academique/suivie_academique/services/ProgrammationService.java:55-75 | an unknown room passes the availability check and fails at its lookup |
| ProgrammationService.Flushed | src/main/java/com/suivie_academique/suivie_academique/services/ProgrammationService.java:110-119 | the rows the availability query sees during an update: the edited booking with its new hours and times, every other row unchanged |
| ProgrammationService.UpdateProgrammationOutcome | src/main/java/com/suivie_academique/suivie_academique/services/ProgrammationService.java:104-139 | unknown id, null dates, unavailable room (the edited booking included), unknown or null room and course, then status through valueOf; on success hours, times, room, course and status replaced, organiser and validator kept |
| ProgrammationService.UpdateInSameRoomConflicts | src/main/java/com/suivie_academique/suivie_academique/services/ProgrammationService.java:104-122 | an update that keeps the booking's room always fails as unavailable |
| ProgrammationService.ResubmittingIsRefused | src/main/java/com/suivie_academique/suivie_academique/services/ProgrammationService.java:104-122 | sending a booking's own view back as its update fails |
| ProgrammationService.ValiderProgrammationOutcome | src/main/java/com/suivie_academique/suivie_academique/services/ProgrammationService.java:144-156 | unknown id, then unknown validator; on success status VALIDER and the validator set, nothing else changed |
| ProgrammationService.ValidationIsIdempotent | src/main/java/com/suivie_academique/suivie_academique/services/ProgrammationService.java:144-156 | validating again with the same validator changes nothing |
| ProgrammationService.ValidatedBookingLeavesPending | src/main/java/com/suivie_academique/suivie_academique/services/ProgrammationService.java:144-156 | a validated booking is no longer pending and is listed under its validator |
| ProgrammationService.DeleteProgrammationOutcome | src/main/java/com/suivie_academique/suivie_academique/services/ProgrammationService.java:161-166 | an unknown id fails; otherwise exactly that booking is removed |
| ProgrammationService.GetProgrammationById | src/main/java/com/suivie_academique/suivie_academique/services/ProgrammationService.java:244-249 | the view of the booking, or an error quoting the id |
| ProgrammationService.GetByStatut | src/main/java/com/suivie_academique/suivie_academique/services/ProgrammationService.java:172-176 | the status goes through valueOf, then exactly the bookings with it |
| ProgrammationService.GetBySalle | src/main/java/com/suivie_academique/suivie_academique/services/ProgrammationService.java:178-182 | exactly the bookings of the room, as views |
| ProgrammationService.GetByCours | src/main/java/com/suivie_academique/suivie_academique/services/ProgrammationService.java:184-188 | exactly the bookings of the course, as views |
| ProgrammationService.GetByPersonnel | src/main/java/com/suivie_academique/suivie_academique/services/ProgrammationService.java:190-194 | exactly the bookings made by the organiser, as views |
| ProgrammationService.GetByValidateur | src/main/java/com/suivie_academique/suivie_academique/services/ProgrammationService.java:196-200 | exactly the bookings validated by the staff member, as views |
| ProgrammationService.GetProgrammationsEntre | src/main/java/com/suivie_academique/suivie_academique/services/ProgrammationService.java:202-206 | exactly the bookings within the range, as views |
| ProgrammationService.GetEnAttenteValidation | src/main/java/com/suivie_academique/suivie_academique/services/ProgrammationService.java:208-212 | exactly the pending bookings, as views |
| ProgrammationService.ViewSeq | src/main/java/com/suivie_academique/suivie_academique/services/ProgrammationService.java:220-224 | the views of a list of bookings, in the same order |
| ProgrammationService.GetProgrammationsFutures | src/main/java/com/suivie_academique/suivie_academique/services/ProgrammationService.java:220-224 | views of the bookings starting at or after now, ordered by start, each once, none missing |
| ProgrammationService.FuturesShowRows | src/main/java/com/suivie_academique/suivie_academique/services/ProgrammationService.java:220-224 | each listed view shows its booking's id and start |
| ProgrammationService.FuturesComplete | src/main/java/com/suivie_academique/suivie_academique/services/ProgrammationService.java:220-224 | every future booking has its view in the listing |
| ProgrammationService.FuturesDistinct | src/main/java/com/suivie_academique/suivie_academique/services/ProgrammationService.java:220-224 | no booking is listed twice |
| ProgrammationService.CountByStatutName | src/main/java/com/suivie_academique/suivie_academique/services/ProgrammationService.java:226-228 | the size of the status listing, failing as it does |
| ProgrammationService.GetAllProgrammations | src/main/java/com/suivie_academique/suivie_academique/services/ProgrammationService.java:235-239 | the view of every booking |
| ProgrammationService.CreerProgrammation | src/main/java/com/suivie_academique/suivie_academique/services/ProgrammationService.java:30-99 | on the store: as `CreerProgrammationOutcome` |
| ProgrammationService.UpdateProgrammation | src/main/java/com/suivie_academique/suivie_academique/services/ProgrammationService.java:104-139 | on the store, writing the new times before the availability query and rolling back on failure: as `UpdateProgrammationOutcome` |
| ProgrammationService.ValiderProgrammation | src/main/java/com/suivie_academique/suivie_academique/services/ProgrammationService.java:144-156 | on the store: as `ValiderProgrammationOutcome` |
| ProgrammationService.DeleteProgrammation | src/main/java/com/suivie_academique/suivie_academique/services/ProgrammationService.java:161-166 | on the store: as `DeleteProgrammationOutcome` |
| PersonnelUserDetails.UserDetails.GetAuthorities | src/main/java/com/suivie_academique/suivie_academique/security/PersonnelUserDetails.java:21-25 | exactly one authority, ROLE_ followed by a text that names the staff member's role; a missing role is a null-pointer failure |
| PersonnelUserDetails.UserDetails.GetPassword | src/main/java/com/suivie_academique/suivie_academique/security/PersonnelUserDetails.java:28-30 | the stored hash; for a newly created member it is the encoding of the chosen password (see CreatedMemberPrincipal) |
| PersonnelUserDetails.UserDetails.GetUsername | src/main/java/com/suivie_academique/suivie_academique/security/PersonnelUserDetails.java:33-35 | the login; for a newly created member, the login of its transfer object (see CreatedMemberPrincipal) |
| PersonnelUserDetails.UserDetails.IsAccountNonExpired | src/main/java/com/suivie_academique/suivie_academique/security/PersonnelUserDetails.java:37-40 | always true, so every newly created member's principal is usable (see CreatedMemberPrincipal) |
| PersonnelUserDetails.UserDetails.IsAccountNonLocked | src/main/java/com/suivie_academique/suivie_academique/security/PersonnelUserDetails.java:41-44 | always true, so every newly created member's principal is usable (see CreatedMemberPrincipal) |
| PersonnelUserDetails.UserDetails.IsCredentialsNonExpired | src/main/java/com/suivie_academique/suivie_academique/security/PersonnelUserDetails.java:45-48 | always true, so every newly created member's principal is usable (see CreatedMemberPrincipal) |
| PersonnelUserDetails.UserDetails.IsEnabled | src/main/java/com/suivie_academique/suivie_academique/security/PersonnelUserDetails.java:49-52 | always true, so every newly created member's principal is usable (see CreatedMemberPrincipal) |
| PersonnelUserDetails.UserDetails.GetPersonnel | src/main/java/com/suivie_academique/suivie_academique/security/PersonnelUserDetails.java:16-18 | the record given to the constructor, which rebuilds the same principal |
| PersonnelUserDetails.CreatedMemberPrincipal | src/main/java/com/suivie_academique/suivie_academique/security/PersonnelUserDetails.java:16-52 | after a successful creation, the principal built from the stored member has the transfer object's login, the encoded password, the single authority ROLE_ followed by the requested role, and every account flag set |
| PersonnelUserDetails.FoundPrincipal | src/main/java/com/suivie_academique/suivie_academique/security/PersonnelDetailsService.java:20-24 | the principal loaded for a login found in the store has that login as its user name, wraps a stored record, and carries that record's password hash |
| PersonnelUserDetails.AuthorityDeterminesRole | src/main/java/com/suivie_academique/suivie_academique/security/PersonnelUserDetails.java:21-25 | two principals have the same authority exactly when their roles are the same |
| PersonnelUserDetails.TeacherAuthority | src/main/java/com/suivie_academique/suivie_academique/security/PersonnelUserDetails.java:21-25 | a teacher's authority is ROLE_ENSEIGNANT |
| LoggingContextFilter.GetClientIp | src/main/java/com/suivie_academique/suivie_academique/logging/LoggingContextFilter.java:42-57 | a usable header gives its first comma-separated field trimmed, comma-free, and fails on a header of commas only; otherwise the IPv6 loopback becomes 127.0.0.1 and any other remote address is returned as is |
| LoggingContextFilter.TrimKeepsCommaFree | src/main/java/com/suivie_academique/suivie_academique/logging/LoggingContextFilter.java:46 | trimming a comma-free text leaves it comma-free |
| LoggingContextFilter.LeadingCommaGivesEmpty | src/main/java/com/suivie_academique/suivie_academique/logging/LoggingContextFilter.java:46 | a header starting with a comma gives the empty address |
| LoggingContextFilter.CommasOnlyFails | src/main/java/com/suivie_academique/suivie_academique/logging/LoggingContextFilter.java:44-46 | the header ",," is not blank and fails at element 0 |
| LoggingContextFilter.HeaderWins | src/main/java/com/suivie_academique/suivie_academique/logging/LoggingContextFilter.java:44-46 | with a usable header the remote address plays no part |
| LoggingContextFilter.UserName | src/main/java/com/suivie_academique/suivie_academique/logging/LoggingContextFilter.java:28-33 | the authentication's name when it is present, authenticated and not the anonymous principal; ANONYMOUS otherwise |
| LoggingContextFilter.AnonymousTokenLoggedAnonymous | src/main/java/com/suivie_academique/suivie_academique/logging/LoggingContextFilter.java:28-33 | Spring's anonymous token is logged as ANONYMOUS |
| LoggingContextFilter.DiagnosticContext.DoFilter | src/main/java/com/suivie_academique/suivie_academique/logging/LoggingContextFilter.java:16-40 | the chain runs with ip and UserName put into the context; the context is empty afterwards, whether the chain or the address lookup failed or not |

## Left out

- The REST controllers, `AuthController` and `PersonnelDetailsService` are not part of this model. They only call the services.
- `getProgrammationsDuJour` and `findProgrammationsDuJour` are left out: they compare the calendar day of a timestamp with `CURRENT_DATE`, which needs a time zone and a calendar.
- Times are integers (instants). `java.util.Date` and its time zone are not modelled.
- The clock, the random draws and the password encoder are parameters.
- `PersonnelService.countBySexe`, `AffectationService.countByPersonnel` and `AffectationService.countByCours` only pass their argument on. They are the repository functions `PersonnelRepository.CountBySexe`, `AffectationRepository.CountByPersonnel` and `AffectationRepository.CountByCours`.
- CodeGenerator.Generate: the source draws until it finds a free code and never ends while every code is taken. The model consumes a finite sequence of draws and reports `DrawsExhausted` when they run out.
- Concurrency is not modelled: two requests interleaving between an availability check and a save.
- Foreign keys of assignments are not modelled. In the model, deleting a staff member or a course leaves their assignments in place. The database would refuse that delete, but the entities declare no cascade to `Affectation`, so whether it fails depends on the schema. An assignment view resolves a missing staff member or course as null.
- `LIKE` patterns are modelled as substring search. A `%` or `_` inside the search text is not treated as a wildcard.
- Text columns other than keys and enumerations are non-null strings in the model.
- CreerProgrammation: always stores a new booking under the next free id. The source's mapper copies the transfer object's id into the entity, so saving with an id that is already in use merges over that booking, replacing its fields and clearing its validator; the model does not capture that merge.
- Text.ParseInt: models the cast of the H2 database, which the project's test configuration selects (SuivieAcademiqueApplicationTests.java:49-51). Another database casts differently. MySQL, for one, reads the leading digits, so "45H" gives 45 there, and CoursRepository.HoursFixtureBreaksHourQueries then states the H2 behaviour only. The non-ASCII decimal digits that `Integer.parseInt` also accepts are not modelled: the model's digits are '0' to '9'.
- Logging calls other than the two context entries, and the MDC's thread-local nature, are left out. The context is a field of `DiagnosticContext`.
- Hibernate's first-level cache is not modelled. A read inside a transaction sees the store as the model updates it.
