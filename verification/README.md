# ClinicApi scheduling and patient rules in Dafny

This project models the business core of the ClinicApi clinic system as pure functions over immutable data, and proves properties about them:

- the appointment conflict query and the neighbouring repository filters and sorts;
- the scheduling policy of the Business `AppointmentDomainService`: the scheduling gate, consultation fees, the cancellation notice window, emergency availability and the next-free-slot scan;
- the entity rules of `Appointment`, `DoctorSchedule`, `Doctor`, `Patient`, `Prescription`, `MedicalRecord` and `ApplicationUser`;
- the two parallel appointment workflows: the Business `AppointmentService` and the MediatR command handlers, with the places where their rules differ;
- the patient rules of both `PatientDomainService` classes: eligibility, risk, accommodations, the same-day limit, discounts, guardian consent, age and the patient number;
- the two patient workflows: `PatientService` and the patient handlers;
- the FluentValidation rule sets for appointments, patients and registration;
- the patient and doctor repository search predicates;
- the role and claim access decisions embedded in the appointment and patient controllers.

Conventions used throughout:

- `DateTime` and `TimeSpan` are integer ticks of 100 ns, with 864,000,000,000 ticks per day (module `Clock`). Tick-day 0 is a Monday, so the day of the week is `(t / TicksPerDay + 1) % 7` with Sunday 0. A time of day plus a duration is not wrapped at midnight, as in `TimeSpan` addition.
- Dates of birth and "today" are calendar dates (module `Calendar`), with `AddYears` clamping 29 February.
- Persistence is a `map<int, T>` from id to entity for the workflows. Listing and search queries take the rows in the database's enumeration order as a `seq<T>`.
- The clock (`now`, `today`), the id a new row receives and the random draw of the patient number are parameters.
- Exceptions become the `Failure` side of a `Result` that names the .NET exception kind. Controller results become an `Outcome` (Ok, Created, NoContent, BadRequest, Forbidden, NotFound, and Unhandled for an exception the controller does not catch).
- String lengths in the validators are .NET `string.Length`, a count of UTF-16 code units: a character outside the Basic Multilingual Plane counts twice (module `Text`).
- Fees are exact rationals (`real`), rounded to two places half-to-even as `Math.Round(x, 2)` does.
- Appointment status is `Scheduled | Confirmed | InProgress | Completed | Cancelled | Other(s)`, because the Business layer stores it as a free string.

Points where the code's behaviour is easy to misread:

- With `BreakStart` set and `BreakEnd` null, `CanScheduleAppointmentAsync` accepts an appointment only if it ends by the break start (Business/Domain/Services/AppointmentDomainService.cs:59-63). `GetNextAvailableSlotAsync` treats the same schedule as having a zero-length break. See Findings.
- `Math.Round` rounds half to even, so 0.505 becomes 0.50.
- `PatientRepository.SearchAsync` lowercases the term and then compares the raw phone number with the lowered term.
- `CanScheduleAppointmentAsync` has a doc comment about 24 hours' notice, but the code only requires the date to be in the future. The model has no such rule.

Differences between the two appointment workflows are proved as lemmas, not logged as defects:

- `AppointmentHandlers.HandlerUpdateCanDoubleBook`: the handler's update reschedules onto a taken slot, because it makes no conflict check.
- `AppointmentService.ReinstatementCanDoubleBook`: the service's update can set a cancelled appointment's status back to Scheduled without a conflict check, so two appointments can end up on one slot.

## Model

| member | source | states |
|---|---|---|
| AppointmentEntity.EndTime | Domain/Entities/Appointment.cs:25 | the end instant lies exactly one duration after the start, and after it for a positive duration |
| AppointmentEntity.UpcomingPastTrichotomy | Domain/Entities/Appointment.cs:27-29 | an appointment is never both upcoming and past, and is neither exactly when it starts at the given instant |
| AppointmentEntity.UpcomingEarlier | Domain/Entities/Appointment.cs:27 | an appointment upcoming at some instant is upcoming at every earlier instant |
| AppointmentEntity.PastStaysPast | Domain/Entities/Appointment.cs:27-29 | a past appointment stays past as the clock advances, and an upcoming one becomes past once the clock is beyond its start |
| AppointmentEntity.CanBeCancelled | Domain/Entities/Appointment.cs:31-34 | an appointment is cancellable exactly when it is scheduled or confirmed; cancelled, completed, in-progress and any other status are not |
| AppointmentEntity.IsOnSameDay | Domain/Entities/Appointment.cs:36-39 | true exactly when the appointment's start and the instant have the same whole-day count, that is fall on the same date |
| AppointmentEntity.SameDayIgnoresTimeOfDay | Domain/Entities/Appointment.cs:36-39 | only the date of the instant matters: every time of day on that date gives the same answer |
| AppointmentEntity.Cancel | Domain/Entities/Appointment.cs:41-51 | succeeds iff the appointment is cancellable, else an invalid-operation error; on success only status (cancelled), reason and update time change |
| AppointmentEntity.Confirm | Domain/Entities/Appointment.cs:53-60 | succeeds iff the appointment is scheduled, else an invalid-operation error; on success only status (confirmed) and update time change |
| AppointmentEntity.CancelIsFinal | Domain/Entities/Appointment.cs:41-60 | once cancelled, an appointment can be neither cancelled again nor confirmed |
| AppointmentEntity.ConfirmThenCancel | Domain/Entities/Appointment.cs:41-60 | a confirmed appointment can still be cancelled but cannot be confirmed twice |
| DoctorScheduleEntity.WorkingHours | Domain/Entities/DoctorSchedule.cs:21-30 | the working time plus a full break adds up to the window length; without both break bounds it is the window length |
| DoctorScheduleEntity.WorkingHoursBounds | Domain/Entities/DoctorSchedule.cs:21-30 | for a break inside the window, the working time lies between zero and the window length |
| DoctorScheduleEntity.IsWithinWorkingHours | Domain/Entities/DoctorSchedule.cs:32-45 | an instant is a working instant exactly when the day is available, the instant lies in the closed window and, when both break bounds are set, outside the half-open break |
| DoctorScheduleEntity.ClosingTimeIsWorking | Domain/Entities/DoctorSchedule.cs:19-45 | the closing instant is a working instant exactly on a working day, for a break that ends by closing time |
| DoctorScheduleEntity.WorkingDayIffSomeWorkingInstant | Domain/Entities/DoctorSchedule.cs:19-45 | a schedule is a working day exactly when some instant is a working instant of it, for a break that ends by closing time |
| DoctorScheduleEntity.CanScheduleAppointment | Domain/Entities/DoctorSchedule.cs:47-66 | an accepted appointment is on an available day and lies wholly inside the window |
| DoctorScheduleEntity.CanScheduleIffNoBreakOverlap | Domain/Entities/DoctorSchedule.cs:56-63 | with both break bounds, acceptance is exactly "inside the window and not overlapping the break" |
| DoctorScheduleEntity.HalfBreakIgnored | Domain/Entities/DoctorSchedule.cs:56-65 | a break with only one bound does not affect acceptance |
| DoctorScheduleEntity.CanScheduleShorter | Domain/Entities/DoctorSchedule.cs:47-66 | an accepted slot stays accepted when the duration shrinks |
| DoctorScheduleEntity.SchedulableStartIsWorkingTime | Domain/Entities/DoctorSchedule.cs:32-66 | the start of an accepted non-empty appointment is a working instant |
| DoctorEntity.FullName | Domain/Entities/Doctor.cs:29 | the first name, one space, then the last name |
| DoctorEntity.DisplayName | Domain/Entities/Doctor.cs:31 | the title "Dr. " followed by the full name |
| DoctorEntity.IsAvailableOnDay | Domain/Entities/Doctor.cs:33-36 | true iff some schedule for that weekday is a working day |
| DoctorEntity.SchedulableDayIsAvailable | Domain/Entities/Doctor.cs:33-36 | a schedule that accepts an appointment makes its weekday an available day |
| ApplicationUserEntity.FullName | Domain/Entities/ApplicationUser.cs:26 | the first name, one space, then the last name |
| ApplicationUserEntity.IsStaff | Domain/Entities/ApplicationUser.cs:28 | true iff an employee id is present and non-empty |
| ApplicationUserEntity.IsPatientUser | Domain/Entities/ApplicationUser.cs:30 | true iff a patient id is present; partner LinksAreIndependent |
| ApplicationUserEntity.IsDoctorUser | Domain/Entities/ApplicationUser.cs:32 | true iff a doctor id is present; partner LinksAreIndependent |
| ApplicationUserEntity.LinksAreIndependent | Domain/Entities/ApplicationUser.cs:28-32 | setting the patient link, the doctor link or the employee id leaves the other two tests unchanged, and a user may hold several at once |
| ApplicationUserEntity.BlankEmployeeIdIsStaff | Domain/Entities/ApplicationUser.cs:28 | an employee id made only of white space still makes a staff member |
| PatientEntity.FullName | Domain/Entities/Patient.cs:28 | the first name, one space, then the last name |
| PatientEntity.Age | Domain/Entities/Patient.cs:30-37 | the difference of the years, less one when this year's birthday (month and day) is still ahead |
| PatientEntity.IsMinor | Domain/Entities/Patient.cs:39 | a minor is a patient whose age is under 18 |
| PatientEntity.MinorUntilEighteenthBirthday | Domain/Entities/Patient.cs:30-39 | a patient is a minor exactly on the days before the 18th birthday |
| PrescriptionEntity.IsActive | Domain/Entities/Prescription.cs:28 | active iff the status is Active and the prescription is not expired; partners ActiveIsNotExpired and ClosedIsNeverActive |
| PrescriptionEntity.IsExpired | Domain/Entities/Prescription.cs:30 | expired iff now is past the end date; partners ExpiryIsPermanent and RemainingDays |
| PrescriptionEntity.ExpiryIsPermanent | Domain/Entities/Prescription.cs:28-30 | once expired, a prescription stays expired and is not active at any later time |
| PrescriptionEntity.ActiveIsNotExpired | Domain/Entities/Prescription.cs:28-30 | an active prescription is never expired; for one marked active, being active and not being expired coincide |
| PrescriptionEntity.RemainingDays | Domain/Entities/Prescription.cs:32-37 | never negative; zero once expired; otherwise the whole days left before the end date, the fraction dropped |
| PrescriptionEntity.RemainingDaysDecrease | Domain/Entities/Prescription.cs:32-37 | the remaining days never grow as time passes |
| PrescriptionEntity.Complete | Domain/Entities/Prescription.cs:39-43 | no guard; the status becomes completed, the update time is set, nothing else changes |
| PrescriptionEntity.Cancel | Domain/Entities/Prescription.cs:45-50 | no guard; the status becomes cancelled, the update time is set, the reason is not kept, nothing else changes |
| PrescriptionEntity.ClosedIsNeverActive | Domain/Entities/Prescription.cs:28-50 | a completed or cancelled prescription is not active at any time |
| MedicalRecordEntity.HasDiagnosis | Domain/Entities/MedicalRecord.cs:28 | true iff the diagnosis is present and has a character that is not white space |
| MedicalRecordEntity.RequiresFollowUp | Domain/Entities/MedicalRecord.cs:32 | true iff the follow-up instructions are present and have a character that is not white space |
| MedicalRecordEntity.HasPrescriptions | Domain/Entities/MedicalRecord.cs:30 | true iff the record has at least one prescription |
| MedicalRecordEntity.BlankDiagnosisExample | Domain/Entities/MedicalRecord.cs:28 | a diagnosis of spaces, a tab and a line break counts as no diagnosis |
| Model.ParseStatus | Business/Domain/Models/Appointment.cs:23 | every stored status string reads as a status whose name is that string, and unknown strings never pose as one of the five states |
| Model.ParseStatusName | Business/Domain/Models/Appointment.cs:23 | naming a status and reading the name back gives the same status |
| Model.StatusNameInjective | Business/Domain/Models/Appointment.cs:23 | two statuses have the same stored name exactly when they are the same status |
| Calendar.AddYears | Domain/Entities/Patient.cs:34 | the same month and day the given number of years away, 29 February becoming the 28th in a common year |
| Calendar.AgeCharacterization | Domain/Entities/Patient.cs:30-37 | the age is the year difference, less one exactly when the birthday is still ahead in the year |
| Calendar.AgeOnBirthday | Domain/Entities/Patient.cs:30-37 | on the n-th birthday the age is n |
| Calendar.AgeBeforeBirthday | Domain/Entities/Patient.cs:30-37 | earlier in the year of the n-th birthday the age is n - 1 |
| Calendar.AgeMonotone | Domain/Entities/Patient.cs:30-37 | the age never decreases as the reference date advances |
| Calendar.AgeNonNegative | Domain/Entities/Patient.cs:30-37 | nobody born on or before the reference date has a negative age |
| Calendar.LeapDayBirthdayExample | Domain/Entities/Patient.cs:30-37 | someone born on 29 February 2020 is 2 on 28 February 2023, 3 on 1 March 2023 and 4 on 29 February 2024 |
| Roles.RoleNameRoundTrip | Domain/Enums/ClinicRoles.cs:5-10 | every role's name parses back to it, and only the six role names parse |
| AppointmentRepository.GetByPatientId | Infrastructure/Data/Repositories/AppointmentRepository.cs:13-20 | exactly the patient's appointments, each as often as stored, latest first |
| AppointmentRepository.GetByDoctorId | Infrastructure/Data/Repositories/AppointmentRepository.cs:22-29 | exactly the doctor's appointments, each as often as stored, earliest first |
| AppointmentRepository.GetByDateRange | Infrastructure/Data/Repositories/AppointmentRepository.cs:31-42 | exactly the appointments starting within the closed range, each as often as stored, earliest first |
| AppointmentRepository.GetByStatus | Infrastructure/Data/Repositories/AppointmentRepository.cs:44-52 | exactly the appointments whose stored status string equals the argument, earliest first |
| AppointmentRepository.GetUpcoming | Infrastructure/Data/Repositories/AppointmentRepository.cs:54-69 | exactly the appointments that are not cancelled and start between now and the given number of days ahead, earliest first |
| AppointmentRepository.GetWithDetails | Infrastructure/Data/Repositories/AppointmentRepository.cs:71-78 | nothing iff no row has the id; otherwise a stored row with that id |
| AppointmentRepository.HasConflict | Infrastructure/Data/Repositories/AppointmentRepository.cs:80-103 | a conflict iff some stored appointment, other than the excluded id, is the doctor's, is not cancelled, and overlaps the half-open slot; its properties are the rows from BlocksIsOverlap to FreeSlotBlocksNothing |
| AppointmentRepository.BlocksIsOverlap | Infrastructure/Data/Repositories/AppointmentRepository.cs:87-95 | an appointment blocks a slot iff it is the doctor's, not cancelled, and its half-open interval overlaps the slot's |
| AppointmentRepository.BackToBackNoConflict | Infrastructure/Data/Repositories/AppointmentRepository.cs:87-95 | a slot that starts when every other appointment has ended, or ends before it starts, has no conflict |
| AppointmentRepository.ConflictSymmetric | Infrastructure/Data/Repositories/AppointmentRepository.cs:87-95 | between two live appointments of one doctor, conflict does not depend on which one asks |
| AppointmentRepository.NonBlockingIrrelevant | Infrastructure/Data/Repositories/AppointmentRepository.cs:89-95 | adding a cancelled appointment or another doctor's never changes the answer |
| AppointmentRepository.ExcludeIsRemoval | Infrastructure/Data/Repositories/AppointmentRepository.cs:97-100 | excluding an id answers as if that appointment were not stored |
| AppointmentRepository.ConflictMonotone | Infrastructure/Data/Repositories/AppointmentRepository.cs:87-95 | a longer slot at the same start conflicts with everything the shorter one does |
| AppointmentRepository.FreeForShorter | Infrastructure/Data/Repositories/AppointmentRepository.cs:87-95 | a free slot stays free when shortened |
| AppointmentRepository.SelfExcluded | Infrastructure/Data/Repositories/AppointmentRepository.cs:97-100 | an appointment never conflicts with itself once its own id is excluded |
| AppointmentRepository.ConflictExample | Infrastructure/Data/Repositories/AppointmentRepository.cs:87-95 | a 30-minute booking at 10:00 leaves 10:30 free, makes 10:15 a conflict, and blocks nothing once cancelled |
| AppointmentRepository.ClashIsBlocking | Infrastructure/Data/Repositories/AppointmentRepository.cs:87-95 | against a live appointment, clashing with it is being blocked by it, and clashing is symmetric |
| AppointmentRepository.PutPreservesNoDoubleBooking | Infrastructure/Data/Repositories/AppointmentRepository.cs:80-103 | storing an appointment that nothing else blocks, or a cancelled one, keeps the store free of double bookings |
| AppointmentRepository.FreeSlotBlocksNothing | Infrastructure/Data/Repositories/AppointmentRepository.cs:80-103 | a slot the test finds free, with no exclusion or with the key being written excluded, is blocked by no other stored appointment |
| Intervals.OverlapSymmetric | Infrastructure/Data/Repositories/AppointmentRepository.cs:93 | the overlap test gives the same answer whichever appointment is asked about first |
| Intervals.TouchingDoNotOverlap | Infrastructure/Data/Repositories/AppointmentRepository.cs:93 | an appointment ending exactly when another starts does not conflict with it |
| Intervals.OverlapWitness | Infrastructure/Data/Repositories/AppointmentRepository.cs:93 | two non-empty appointments overlap exactly when some instant lies in both |
| Intervals.OverlapMonotone | Infrastructure/Data/Repositories/AppointmentRepository.cs:93 | lengthening an appointment keeps every conflict it had |
| DoctorRepository.GetByEmail | Infrastructure/Data/Repositories/DoctorRepository.cs:13-16 | nothing iff no doctor has exactly that email; otherwise a stored doctor with it |
| DoctorRepository.GetByLicenseNumber | Infrastructure/Data/Repositories/DoctorRepository.cs:18-21 | nothing iff no doctor holds that licence number; otherwise a stored doctor holding it |
| DoctorRepository.GetBySpecialization | Infrastructure/Data/Repositories/DoctorRepository.cs:23-28 | exactly the active doctors whose specialization equals the argument ignoring letter case, in table order |
| DoctorRepository.SpecializationIgnoresCase | Infrastructure/Data/Repositories/DoctorRepository.cs:23-28 | asking with the lowercased specialization gives the same list |
| DoctorRepository.Search | Infrastructure/Data/Repositories/DoctorRepository.cs:30-41 | exactly the doctors, active or not, whose lowercased first name, last name, specialization or email contains the lowercased term, in table order |
| DoctorRepository.SpecializationDoctorsAreSearchable | Infrastructure/Data/Repositories/DoctorRepository.cs:23-41 | every doctor the specialization query finds is also found by searching for that specialization |
| DoctorRepository.GetActive | Infrastructure/Data/Repositories/DoctorRepository.cs:43-46 | exactly the active doctors, in table order |
| PatientRepository.GetByEmail | Infrastructure/Data/Repositories/PatientRepository.cs:13-16 | nothing iff no patient has exactly that email; otherwise a stored patient with it |
| PatientRepository.Search | Infrastructure/Data/Repositories/PatientRepository.cs:18-29 | exactly the patients, active or not, whose lowercased names or email, or whose phone number as stored, contain the lowercased term, in table order |
| PatientRepository.SearchIgnoresTermCase | Infrastructure/Data/Repositories/PatientRepository.cs:18-29 | a term and its lowercase find the same patients |
| PatientRepository.PhoneComparedWithLoweredTerm | Infrastructure/Data/Repositories/PatientRepository.cs:20-26 | a phone number "EXT" is not found by searching for "EXT", because the phone is compared with the lowercased term |
| PatientRepository.GetActive | Infrastructure/Data/Repositories/PatientRepository.cs:31-34 | exactly the active patients, each as often as stored, in table order |
| AppointmentDomainService.CanSchedule | Business/Domain/Services/AppointmentDomainService.cs:27-67 | accepted iff the slot is in the future, no live appointment of the doctor overlaps it, and the doctor exists and has a schedule for that weekday that admits it |
| AppointmentDomainService.FitsScheduleAgreesWithEntity | Business/Domain/Services/AppointmentDomainService.cs:54-64 | for a break with both bounds or none, the service's working-hours test agrees with the schedule entity's CanScheduleAppointment (Domain/Entities/DoctorSchedule.cs:47-66) |
| AppointmentDomainService.FitsScheduleStricterOnHalfBreak | Business/Domain/Services/AppointmentDomainService.cs:59-63 | with only a break start, the service refuses every appointment that runs past it, which the entity would accept |
| AppointmentDomainService.CanScheduleIgnoresCancelled | Business/Domain/Services/AppointmentDomainService.cs:37-44 | adding a cancelled appointment never changes whether a slot can be scheduled |
| AppointmentDomainService.RoundCents | Business/Domain/Services/AppointmentDomainService.cs:111-114 | the whole number of cents nearest to the amount, a tie going to the even count |
| AppointmentDomainService.RoundCentsUnique | Business/Domain/Services/AppointmentDomainService.cs:111-114 | only one cent count meets the rounding rule |
| AppointmentDomainService.RoundCentsMonotone | Business/Domain/Services/AppointmentDomainService.cs:111-114 | rounding never reverses the order of two amounts |
| AppointmentDomainService.Round2 | Business/Domain/Services/AppointmentDomainService.cs:111-114 | the rounded fee is a whole number of cents within half a cent of the exact amount |
| AppointmentDomainService.SpecializationMultiplier | Business/Domain/Services/AppointmentDomainService.cs:81-89 | 1.5 for cardiology, 1.4 for neurology, 1.3 for orthopedics, 1.1 for pediatrics, 1.0 for general and 1.2 for every other specialization, each value for exactly those names |
| AppointmentDomainService.DurationMultiplier | Business/Domain/Services/AppointmentDomainService.cs:92-99 | 0.5 up to 15 minutes, 1.0 up to 30, 1.5 up to 60, 2.0 up to 90 and 2.5 beyond, each value exactly on its band |
| AppointmentDomainService.DurationBucketEdges | Business/Domain/Services/AppointmentDomainService.cs:92-99 | each band includes its upper bound: 15, 30, 60 and 90 minutes get the lower multiplier and one tick more gets the next |
| AppointmentDomainService.DurationMultiplierMonotone | Business/Domain/Services/AppointmentDomainService.cs:92-99 | a longer appointment never gets a smaller duration multiplier |
| AppointmentDomainService.TypeMultiplier | Business/Domain/Services/AppointmentDomainService.cs:102-109 | 2.0 exactly for emergency, 0.8 exactly for follow-up, 1.2 exactly for consultation, and 1.0 for regular and every unknown type |
| AppointmentDomainService.FeeProductMonotone | Business/Domain/Services/AppointmentDomainService.cs:111-114 | with non-negative factors, a larger duration multiplier never gives a smaller product |
| AppointmentDomainService.CalculateConsultationFee | Business/Domain/Services/AppointmentDomainService.cs:72-115 | the base fee times the three multipliers, rounded to whole cents with ties to even |
| AppointmentDomainService.FeeMonotoneInDuration | Business/Domain/Services/AppointmentDomainService.cs:72-115 | with a non-negative base fee, a longer appointment never costs less |
| AppointmentDomainService.FeeIgnoresCase | Business/Domain/Services/AppointmentDomainService.cs:81-102 | the specialization and the appointment type are matched without regard to letter case |
| AppointmentDomainService.RoundingExample | Business/Domain/Services/AppointmentDomainService.cs:111-114 | a cent count meeting the rounding rule for an amount is what the amount rounds to |
| AppointmentDomainService.CardiologyRate | Business/Domain/Services/AppointmentDomainService.cs:83 | "Cardiology" has multiplier 1.5 |
| AppointmentDomainService.GeneralRate | Business/Domain/Services/AppointmentDomainService.cs:87 | "General" has multiplier 1.0 |
| AppointmentDomainService.RegularRate | Business/Domain/Services/AppointmentDomainService.cs:107 | "Regular" has type multiplier 1.0 |
| AppointmentDomainService.EmergencyRate | Business/Domain/Services/AppointmentDomainService.cs:104 | "Emergency" has type multiplier 2.0 |
| AppointmentDomainService.CardiologyFeeExample | Business/Domain/Services/AppointmentDomainService.cs:72-115 | a regular half-hour cardiology visit at base fee 100 costs 150 |
| AppointmentDomainService.EmergencyFeeExample | Business/Domain/Services/AppointmentDomainService.cs:72-115 | the same visit as an emergency costs 300 |
| AppointmentDomainService.TieFeeExample | Business/Domain/Services/AppointmentDomainService.cs:111-114 | an exact fee of 0.505 rounds to 0.50, the even cent |
| AppointmentDomainService.CanCancel | Business/Domain/Services/AppointmentDomainService.cs:121-136 | allowed iff the appointment is at least the required notice ahead: 2 hours when the reason mentions an emergency in any letter case, 24 hours otherwise; never for a past appointment |
| AppointmentDomainService.CanCancelEarlier | Business/Domain/Services/AppointmentDomainService.cs:121-136 | a cancellation allowed at some time is also allowed at any earlier time |
| AppointmentDomainService.CanCancelIgnoresStatus | Business/Domain/Services/AppointmentDomainService.cs:121-136 | the appointment's status plays no part in the decision |
| AppointmentDomainService.EmergencyCancelExample | Business/Domain/Services/AppointmentDomainService.cs:131-132 | three hours' notice suffices for a reason "EMERGENCY" |
| AppointmentDomainService.RoutineCancelExample | Business/Domain/Services/AppointmentDomainService.cs:134-135 | without a reason, three hours' notice is refused, 24 hours suffice and one tick less does not |
| AppointmentDomainService.AvailableForEmergency | Business/Domain/Services/AppointmentDomainService.cs:142-155 | available iff no live appointment of the doctor overlaps the two hours from the requested time, and then every shorter slot there is free too |
| NextSlot.DaySchedule | Business/Domain/Services/AppointmentDomainService.cs:177-179 | the first schedule in the doctor's list for the weekday that is available, none exactly when the doctor has no available schedule for it |
| NextSlot.FirstFreeIsFirst | Business/Domain/Services/AppointmentDomainService.cs:205-215 | the first free start of a list is free and in the future and every start before it is not; there is none exactly when no start of the list is |
| NextSlot.FirstFreeCons | Business/Domain/Services/AppointmentDomainService.cs:212-215 | the first free start of a list beginning with t is t when t is free, otherwise the first free start of the rest |
| NextSlot.FirstFreeMember | Business/Domain/Services/AppointmentDomainService.cs:212-213 | the first free start is one of the starts given, and it is free and in the future |
| NextSlot.ScanDayAsWritten | Business/Domain/Services/AppointmentDomainService.cs:188-216 | a returned start is in the future, free of conflicts, no earlier than the first start tried, finished by the schedule's end, and clear of the break as the code reads it, a missing end counting as the start |
| NextSlot.ScanDayAsWrittenIsFirstFree | Business/Domain/Services/AppointmentDomainService.cs:188-216 | the code's loop over one day returns the first start it tries that is free and in the future |
| NextSlot.ScanDateAsWritten | Business/Domain/Services/AppointmentDomainService.cs:174-186 | no available schedule for the weekday gives no slot; a slot offered is in the future and free of conflicts |
| NextSlot.ScanDaysAsWritten | Business/Domain/Services/AppointmentDomainService.cs:172-218 | a returned slot is in the future and free of conflicts |
| NextSlot.ScanDaysAsWrittenIsFirstDay | Business/Domain/Services/AppointmentDomainService.cs:172-218 | the code's loop over days returns the result of the first day, from the given one, whose scan finds a slot |
| NextSlot.ScanDaysAsWrittenFirstFit | Business/Domain/Services/AppointmentDomainService.cs:172-218 | when day k is the first day from the given one whose scan finds a slot, the loop over days returns that day's slot |
| NextSlot.ScanDaysAsWrittenNoneIff | Business/Domain/Services/AppointmentDomainService.cs:172-219 | the code's loop over days finds nothing exactly when no day from the given one to the end of the 30-day window has a slot |
| NextSlot.GetNextAvailableSlotAsWritten | Business/Domain/Services/AppointmentDomainService.cs:161-220 | no slot for an unknown doctor or one without schedules; an offered slot is in the future and free of conflicts |
| NextSlot.ScanDateAsWrittenInWindow | Business/Domain/Services/AppointmentDomainService.cs:174-216 | a slot the code offers on a date comes from that weekday's first available schedule, lies inside its window on that date and is clear of the break as the code reads it |
| NextSlot.ScanDateAsWrittenWithinDay | Business/Domain/Services/AppointmentDomainService.cs:174-188 | a slot the code offers on a date lies within that day, for schedule times that are times of day and a positive duration |
| NextSlot.ScanDaysAsWrittenWithinWindow | Business/Domain/Services/AppointmentDomainService.cs:172-218 | a slot the code's loop over days offers from day k on lies between day k's midnight and the end of the 30-day window |
| NextSlot.ScanDaysAsWrittenFromSomeDay | Business/Domain/Services/AppointmentDomainService.cs:172-218 | a slot the code's loop over days offers is the slot of one day of the window from day k on |
| NextSlot.NextSlotAsWrittenWithinWindow | Business/Domain/Services/AppointmentDomainService.cs:161-220 | every slot the code offers lies within the 30 days that start at the date of the search's start, for schedule times that are times of day and a positive duration |
| NextSlot.NextSlotAsWrittenFitsSchedule | Business/Domain/Services/AppointmentDomainService.cs:161-220 | every slot the code offers lies, on some day of the window, inside that weekday's first available schedule and clear of the break as the code reads it, so a half-open break is treated as zero length |
| NextSlot.HalfBreakDayScan | Business/Domain/Services/AppointmentDomainService.cs:191-203 | with a break start of 12:00 and no end, the code's one-hour scan of the first Monday from 11:30 jumps to 12:00 and offers it, for any clock before 12:00 |
| NextSlot.HalfBreakMonday | Business/Domain/Services/AppointmentDomainService.cs:177-179 | a doctor whose only schedule is the half-break one has it as the Monday schedule |
| NextSlot.HalfBreakDateScan | Business/Domain/Services/AppointmentDomainService.cs:174-186 | the code's scan of that Monday offers 12:00 |
| NextSlot.HalfBreakFirstDay | Business/Domain/Services/AppointmentDomainService.cs:172-186 | searching from tick 0, the first day of the window is that Monday and its scan offers 12:00 |
| NextSlot.HalfBreakDaysScan | Business/Domain/Services/AppointmentDomainService.cs:172-218 | searching from tick 0, the code's loop over days stops on its first day at 12:00 |
| NextSlot.HalfBreakOffered | Business/Domain/Services/AppointmentDomainService.cs:161-220 | under that schedule the code's search offers 12:00 on the first Monday for a one-hour appointment, whenever it runs before 12:00 |
| NextSlot.HalfBreakRefused | Business/Domain/Services/AppointmentDomainService.cs:59-63 | the scheduling check refuses that same slot, which runs past the break start |
| NextSlot.HalfBreakCounterexample | Business/Domain/Services/AppointmentDomainService.cs:191-203 | the code's search offers a slot that the scheduling check of the same class refuses |
| NextSlot.ScanDay | Business/Domain/Services/AppointmentDomainService.cs:188-216 | a returned start is in the future, free of conflicts, inside the schedule window and clear of the break, an open-ended break ending the day |
| NextSlot.ScanDayIsFirstFree | Business/Domain/Services/AppointmentDomainService.cs:188-216 | the corrected loop over one day returns the first start it tries that is free and in the future |
| NextSlot.CandidatesInWindow | Business/Domain/Services/AppointmentDomainService.cs:188-203 | every start the corrected loop tries lies at or after the first start, ends by the schedule's end and is clear of the break |
| NextSlot.CandidatesIncreasing | Business/Domain/Services/AppointmentDomainService.cs:188-215 | the starts the corrected loop tries strictly increase |
| NextSlot.CandidatesOnGrid | Business/Domain/Services/AppointmentDomainService.cs:184-215 | without a break, the starts tried are exactly the 15-minute steps from the first start that end by the schedule's end |
| NextSlot.FirstCandidateSound | Business/Domain/Services/AppointmentDomainService.cs:188-215 | the first free start among those tried is free, in the future, in the window and clear of the break |
| NextSlot.ScanDate | Business/Domain/Services/AppointmentDomainService.cs:174-186 | no available schedule for the weekday gives no slot; a slot offered on a date is in the future and free of conflicts |
| NextSlot.ScanDateInWindow | Business/Domain/Services/AppointmentDomainService.cs:174-216 | a slot offered on a date comes from that weekday's schedule, lies inside its window on that date and is clear of its break |
| NextSlot.ScanDays | Business/Domain/Services/AppointmentDomainService.cs:172-218 | a returned slot is in the future and free of conflicts |
| NextSlot.FirstDayIsFirst | Business/Domain/Services/AppointmentDomainService.cs:172-218 | when day j is the first day from k whose result holds a slot, the search over days returns that slot |
| NextSlot.FirstDayNoneIff | Business/Domain/Services/AppointmentDomainService.cs:172-219 | the search over days finds nothing exactly when no day's result holds a slot |
| NextSlot.ScanDaysIsFirstDay | Business/Domain/Services/AppointmentDomainService.cs:172-218 | the corrected loop over days returns the result of the first day, from the given one, whose scan finds a slot |
| NextSlot.ScanDaysFirstFit | Business/Domain/Services/AppointmentDomainService.cs:172-218 | when day k is the first day from the given one whose corrected scan finds a slot, the loop over days returns that day's slot |
| NextSlot.ScanDaysNoneIff | Business/Domain/Services/AppointmentDomainService.cs:172-219 | the corrected loop over days finds nothing exactly when no day from the given one to the end of the 30-day window has a slot |
| NextSlot.GetNextAvailableSlot | Business/Domain/Services/AppointmentDomainService.cs:161-220 | a slot is offered only for a known doctor with schedules, and is in the future and free of conflicts |
| NextSlot.NextSlotFirstFit | Business/Domain/Services/AppointmentDomainService.cs:161-220 | when day k is the first day of the 30-day window on which the scan finds a slot, the search returns that day's slot |
| NextSlot.NextSlotNoneIff | Business/Domain/Services/AppointmentDomainService.cs:161-220 | the search finds nothing exactly for an unknown doctor, a doctor without schedules, or when no day of the window has a slot |
| NextSlot.CandidatesAgree | Business/Domain/Services/AppointmentDomainService.cs:191-202 | when the break has both bounds or neither, the corrected loop tries exactly the starts the code tries |
| NextSlot.ScanDayAgrees | Business/Domain/Services/AppointmentDomainService.cs:188-216 | for such a schedule the corrected and the code's loop over one day return the same start |
| NextSlot.ScanDateAgrees | Business/Domain/Services/AppointmentDomainService.cs:174-216 | for a doctor whose breaks all have both bounds or neither, the corrected and the code's scans of a date agree |
| NextSlot.ScanDaysAgree | Business/Domain/Services/AppointmentDomainService.cs:172-218 | for such a doctor the corrected and the code's loops over days agree from any day on |
| NextSlot.NextSlotAgreesWithCode | Business/Domain/Services/AppointmentDomainService.cs:161-220 | for a doctor whose breaks all have both bounds or neither, the corrected search returns exactly what the code returns |
| NextSlot.ScanDateWithinDay | Business/Domain/Services/AppointmentDomainService.cs:174-188 | a slot offered on a date lies within that day, for schedule times that are times of day and a positive duration |
| NextSlot.ScanDaysWithinWindow | Business/Domain/Services/AppointmentDomainService.cs:172-186 | a slot the loop over days offers from day k on lies between day k's midnight and the end of the 30-day window |
| NextSlot.NextSlotWithinWindow | Business/Domain/Services/AppointmentDomainService.cs:161-220 | every slot offered lies within the 30 days that start at the date of the search's start, for schedule times that are times of day and a positive duration |
| NextSlot.SlotFitsSchedule | Business/Domain/Services/AppointmentDomainService.cs:54-64 | a start inside the window and clear of the break passes the working-hours test on its day |
| NextSlot.DaySlotSchedulable | Business/Domain/Services/AppointmentDomainService.cs:27-67 | a free future start inside one of the doctor's windows and clear of its break passes the scheduling check |
| NextSlot.ScanDateSchedulable | Business/Domain/Services/AppointmentDomainService.cs:174-216 | the slot offered on a date passes the scheduling check |
| NextSlot.ScanDaysSchedulable | Business/Domain/Services/AppointmentDomainService.cs:172-218 | every slot the loop over days offers passes the scheduling check |
| NextSlot.NextSlotIsSchedulable | Business/Domain/Services/AppointmentDomainService.cs:161-220 | every slot the search offers is one the scheduling check accepts for the same clock, store and doctor |
| AppointmentService.CreateAppointment | Business/Application/Services/AppointmentService.cs:86-133 | an unknown patient, an unknown doctor and a slot the scheduling check refuses are each refused with their own error; otherwise the booking is scheduled under the new id with the requested fields and the fee priced for a missing reason as a regular visit |
| AppointmentService.CreatePreservesNoDoubleBooking | Business/Application/Services/AppointmentService.cs:104-131 | a successful booking keeps the store free of double bookings |
| AppointmentService.CreateRejectsPast | Business/Application/Services/AppointmentService.cs:104-116 | a booking at or before the current time is always refused |
| AppointmentService.CheckAvailability | Business/Application/Services/AppointmentService.cs:226-237 | available iff the slot is in the future, free of live conflicts, and inside one of the known doctor's schedules |
| AppointmentService.AvailableMeansBookable | Business/Application/Services/AppointmentService.cs:105-116 | for an existing patient, a booking succeeds iff the slot is reported available |
| AppointmentService.UpdateAppointment | Business/Application/Services/AppointmentService.cs:135-185 | an unknown id gives no appointment; a change of date or duration into a slot another live appointment of the doctor holds is refused; otherwise only the supplied fields change, a status only when non-empty, and id, patient and doctor stay |
| AppointmentService.ChangesIdempotent | Business/Application/Services/AppointmentService.cs:165-181 | applying the same changes twice is applying them once |
| AppointmentService.EmptyChangesTouchOnlyTimestamp | Business/Application/Services/AppointmentService.cs:165-181 | no supplied field, or an empty status, changes only the update time |
| AppointmentService.UpdatePreservesNoDoubleBooking | Business/Application/Services/AppointmentService.cs:146-183 | an update that does not reinstate a cancelled appointment keeps the store free of double bookings |
| AppointmentService.ReinstatementCanDoubleBook | Business/Application/Services/AppointmentService.cs:146-171 | setting a cancelled appointment's status back to Scheduled runs no conflict check and can double-book the doctor |
| AppointmentService.CancelAppointment | Business/Application/Services/AppointmentService.cs:192-218 | an unknown id gives false; a cancellation without the required notice is refused; otherwise only status, reason and update time change |
| AppointmentService.CancelFreesSlot | Business/Application/Services/AppointmentService.cs:192-218 | after a cancellation the slot it held is free for the same doctor and the store stays free of double bookings |
| AppointmentService.CancelIgnoresStatus | Business/Application/Services/AppointmentService.cs:192-218 | a completed appointment with 24 hours' notice is cancelled, which the entity's own Cancel refuses |
| AppointmentService.DeleteAppointment | Business/Application/Services/AppointmentService.cs:187-190 | reports whether the id was stored and removes exactly that entry |
| AppointmentService.DeletePreservesNoDoubleBooking | Business/Application/Services/AppointmentService.cs:187-190 | deleting keeps the store free of double bookings and frees the deleted slot |
| AppointmentHandlers.CreateAppointment | Application/Handlers/Appointments/CreateAppointmentCommandHandler.cs:36-93 | a missing patient or doctor is an argument error and a refused gate an invalid operation; otherwise the booking is scheduled with the requested fields and priced as a regular visit |
| AppointmentHandlers.HandlerFeeIgnoresReason | Application/Handlers/Appointments/CreateAppointmentCommandHandler.cs:63-68 | the reason for visit never changes the handler's fee |
| AppointmentHandlers.CreateWorkflowsAgree | Application/Handlers/Appointments/CreateAppointmentCommandHandler.cs:36-93 | with the business gate and fee and no reason given, the handler and the business service accept and refuse the same bookings and store the same appointment |
| AppointmentHandlers.UpdateAppointment | Application/Handlers/Appointments/UpdateAppointmentCommandHandler.cs:24-50 | an unknown id gives nothing; otherwise date and duration change when supplied, reason and notes when non-empty, and no other field but the update time |
| AppointmentHandlers.HandlerUpdateCanDoubleBook | Application/Handlers/Appointments/UpdateAppointmentCommandHandler.cs:33-48 | the handler moves an appointment onto a slot another live appointment of the doctor holds, which the business service refuses |
| AppointmentHandlers.EmptyTextKeepsOld | Application/Handlers/Appointments/UpdateAppointmentCommandHandler.cs:40-44 | an empty reason or note leaves the stored one, where the business service writes it |
| AppointmentHandlers.CancelAppointment | Application/Handlers/Appointments/CancelAppointmentCommandHandler.cs:17-32 | false for an unknown or already cancelled appointment; otherwise only status, reason and update time change, with no notice period |
| AppointmentHandlers.CancelTwiceIsNoop | Application/Handlers/Appointments/CancelAppointmentCommandHandler.cs:22-24 | a second cancel is refused and the first reason stays |
| AppointmentHandlers.HandlerCancelHasNoNotice | Application/Handlers/Appointments/CancelAppointmentCommandHandler.cs:17-32 | the handler cancels a completed appointment that has already started, which both the business service and the entity refuse |
| AppointmentHandlers.CheckAvailability | Application/Handlers/Appointments/CheckAvailabilityQueryHandler.cs:16-29 | available iff no appointment in the store blocks the doctor for that many minutes from the date, with the Infrastructure repository's conflict test |
| AppointmentHandlers.AvailableForFewerMinutes | Application/Handlers/Appointments/CheckAvailabilityQueryHandler.cs:16-29 | a slot available for some minutes is available for fewer, with the Infrastructure repository's conflict test |
| AppointmentHandlers.CancelledNeverBlocks | Application/Handlers/Appointments/CheckAvailabilityQueryHandler.cs:16-29 | adding a cancelled appointment never changes the answer, with the Infrastructure repository's conflict test |
| AppointmentHandlers.PastSlotReportedAvailable | Application/Handlers/Appointments/CheckAvailabilityQueryHandler.cs:16-29 | a past slot with nothing overlapping it is reported available, which the business service's check denies, with the Infrastructure repository's conflict test |
| AppointmentHandlers.DeleteHasNoStatusGuard | Application/Handlers/Appointments/DeleteAppointmentCommandHandler.cs:16-27 | the appointment is removed whatever its status and nothing else changes |
| PatientPolicy.CalculateAge | Domain/Services/PatientDomainService.cs:29-36 | the age in whole years, the same as the entity's age, never negative on or after the birth date, and the plain year difference on a birthday |
| PatientPolicy.IsEligibleForDiscount | Domain/Services/PatientDomainService.cs:9-27 | eligible iff the age is at least 65, between 18 and 25, or under 12 |
| PatientPolicy.DiscountGaps | Domain/Services/PatientDomainService.cs:9-27 | exactly the ages 12 to 17 and 26 to 64 get no discount |
| PatientPolicy.RequiresGuardianConsent | Domain/Services/PatientDomainService.cs:38-41 | consent is needed iff the age is under 18 |
| PatientPolicy.GuardianConsentForMinors | Domain/Services/PatientDomainService.cs:38-41 | consent is needed exactly for the patients the entity calls minors (Domain/Entities/Patient.cs) |
| PatientPolicy.ChildrenDiscountedAndGuarded | Domain/Services/PatientDomainService.cs:9-41 | every child under 12 gets a discount and needs consent |
| PatientPolicy.PatientNumber | Domain/Services/PatientDomainService.cs:43-48 | "PT" followed only by digits, the year's digits and then four more |
| PatientPolicy.FourDigits | Domain/Services/PatientDomainService.cs:46 | every draw from 1000 to 9998 prints as exactly four digits |
| PatientPolicy.PatientNumberRoundTrip | Domain/Services/PatientDomainService.cs:43-48 | the year and the draw are read back from the number |
| PatientPolicy.PatientNumberInjective | Domain/Services/PatientDomainService.cs:43-48 | different draws in the same year give different numbers |
| PatientDomainService.CountMentioned | Business/Domain/Services/PatientDomainService.cs:57 | the count is at most the number of words, zero iff none occurs and full iff all occur |
| PatientDomainService.IsEligibleForAppointmentType | Business/Domain/Services/PatientDomainService.cs:13-28 | the type is matched in any letter case; pediatric iff the age is under 18, geriatric iff at least 65, surgery iff 18 to 75 with none of the five surgical risk conditions in the history, emergency always, routine iff active, follow-up iff active with a non-empty history, specialist iff active with a history naming cardiology, neurology, oncology or orthopedic; any other type iff active; an inactive patient is eligible only for the pediatric, geriatric, surgery and emergency types |
| PatientDomainService.AgeBasedTypes | Business/Domain/Services/PatientDomainService.cs:19-21 | pediatric iff the age is under 18, geriatric iff it is at least 65, nobody is both and every age from 18 to 64 is neither; surgery iff the age is 18 to 75 with none of the five surgical risk conditions in the history |
| PatientDomainService.ActivityBasedTypes | Business/Domain/Services/PatientDomainService.cs:23-25 | follow-up iff active with a non-empty history, routine iff active, specialist iff active with a history naming one of cardiology, neurology, oncology or orthopedic |
| PatientDomainService.EmergencyInAnyCase | Business/Domain/Services/PatientDomainService.cs:17-22 | "Emergency" in any letter case is always eligible |
| PatientDomainService.AgePoints | Business/Domain/Services/PatientDomainService.cs:39-45 | 3 points iff the age is at least 75, 2 iff 65 to 74, 1 iff 50 to 64, 0 iff under 50 |
| PatientDomainService.AllergyPoints | Business/Domain/Services/PatientDomainService.cs:60-67 | allergies add at most 2 points |
| PatientDomainService.AllergyPointsByCommas | Business/Domain/Services/PatientDomainService.cs:60-67 | the allergy points follow the comma count: 2 from three commas, 1 from one, otherwise 0 |
| PatientDomainService.RiskScore | Business/Domain/Services/PatientDomainService.cs:35-67 | the score is at most 10 and at least the age points plus the conditions mentioned |
| PatientDomainService.LevelOf | Business/Domain/Services/PatientDomainService.cs:69-75 | Low iff the score is at most 1, Critical iff above 5, High for 4 to 5 and Medium for 2 to 3 |
| PatientDomainService.LevelOfMonotone | Business/Domain/Services/PatientDomainService.cs:69-75 | a higher score never has a lower level |
| PatientDomainService.CalculateRiskLevel | Business/Domain/Services/PatientDomainService.cs:33-76 | a patient from 75 with any risk condition is at least High; one under 50 with none and no allergies is Low |
| PatientDomainService.RiskLevelNeverFallsWithAge | Business/Domain/Services/PatientDomainService.cs:33-76 | with history and allergies fixed, the level never falls as time passes |
| PatientDomainService.RiskExample | Business/Domain/Services/PatientDomainService.cs:33-76 | an 80-year-old with "diabetes, hypertension" and no allergies scores 5 and is High |
| PatientDomainService.ExampleCount | Business/Domain/Services/PatientDomainService.cs:49-57 | two of the five risk conditions occur in "diabetes, hypertension" |
| PatientDomainService.AgeItems | Business/Domain/Services/PatientDomainService.cs:87-99 | the extra-time item iff the age is at least 75 and the pediatric item iff under 5, and only age items |
| PatientDomainService.ConditionItems | Business/Domain/Services/PatientDomainService.cs:101-109 | each condition item iff one of its two words occurs in the history, and only those items |
| PatientDomainService.AllergyItems | Business/Domain/Services/PatientDomainService.cs:111-112 | the allergy protocol iff allergies are recorded |
| PatientDomainService.AccommodationsFor | Business/Domain/Services/PatientDomainService.cs:81-115 | an item is listed iff the age, history or allergy rule calls for it, the allergy protocol last |
| PatientDomainService.Accommodations | Business/Domain/Services/PatientDomainService.cs:81-115 | for the patient's age and lowercased history: extra time iff at least 75, pediatric equipment iff under 5, a wheelchair room iff the history mentions wheelchair or mobility, an interpreter iff hearing or deaf, a quiet room iff anxiety or panic, the allergy protocol iff allergies are recorded; order and distinctness are AccommodationsStartWithAgeItems and AccommodationsDistinct |
| PatientDomainService.AgeRules | Business/Domain/Services/PatientDomainService.cs:87-99 | in the full list the age items appear exactly by age |
| PatientDomainService.ConditionRules | Business/Domain/Services/PatientDomainService.cs:101-109 | in the full list the condition items appear exactly by the history's wording |
| PatientDomainService.AllergyRule | Business/Domain/Services/PatientDomainService.cs:111-112 | in the full list the allergy protocol appears exactly when allergies are recorded |
| PatientDomainService.AccommodationsStartWithAgeItems | Business/Domain/Services/PatientDomainService.cs:87-99 | the age items come first, in their fixed order |
| PatientDomainService.AccommodationsDistinct | Business/Domain/Services/PatientDomainService.cs:81-115 | no item is listed twice |
| PatientDomainService.SameDayLimit | Business/Domain/Services/PatientDomainService.cs:128-141 | the limit is 2 for High or Critical risk; below High risk it is 2 from age 75, 1 exactly under 12, and 3 exactly from 12 to 74 |
| PatientDomainService.CanHaveMultipleAppointmentsSameDay | Business/Domain/Services/PatientDomainService.cs:120-142 | allowed iff fewer appointments exist that day than the limit: fewer than 2 at High or Critical risk or from age 75, none at all for a child under 12, fewer than 3 otherwise; never with three, always with none |
| PatientDomainService.HighRiskChildGetsTwo | Business/Domain/Services/PatientDomainService.cs:128-138 | a High-risk child is held to the risk limit of 2, not the child limit of 1 |
| PatientDomainService.FewerExistingStillAllowed | Business/Domain/Services/PatientDomainService.cs:120-142 | removing appointments from the day never turns an allowed booking into a refused one |
| PatientService.CreatePatient | Business/Application/Services/PatientService.cs:57-72 | refused iff some stored patient holds exactly the email; otherwise stored active under the new id with the given details |
| PatientService.CreatePreservesUniqueEmails | Business/Application/Services/PatientService.cs:57-72 | a successful create keeps emails unique |
| PatientService.KeepUnlessGiven | Business/Application/Services/PatientService.cs:99-110 | a required text field is replaced only by a non-empty value |
| PatientService.KeepUnlessSupplied | Business/Application/Services/PatientService.cs:111-122 | an optional field is replaced by any supplied value, the empty string included |
| PatientService.UpdatePatient | Business/Application/Services/PatientService.cs:74-128 | an unknown id gives no patient; a new non-empty email another patient holds is refused; otherwise required fields change only when non-empty, optional ones whenever supplied, and the active flag never |
| PatientService.UpdatePreservesUniqueEmails | Business/Application/Services/PatientService.cs:74-128 | an update keeps emails unique |
| PatientService.OwnEmailNeverRefused | Business/Application/Services/PatientService.cs:85-96 | resubmitting the patient's own email, or none, is never refused |
| PatientService.EmptyStringClearsOptionalOnly | Business/Application/Services/PatientService.cs:99-112 | an empty string clears an optional field but not a required one |
| PatientService.UpdateIdempotent | Business/Application/Services/PatientService.cs:74-128 | applying the same changes again gives the same patient apart from the update time |
| PatientService.DeactivatePatient | Business/Application/Services/PatientService.cs:135-148 | reports whether the id was stored; that patient becomes inactive and nothing else changes but its update time |
| PatientService.DeactivateIdempotent | Business/Application/Services/PatientService.cs:135-148 | a second deactivation succeeds and changes only the update time |
| PatientService.DeactivatePreservesUniqueEmails | Business/Application/Services/PatientService.cs:135-148 | deactivating never introduces a shared email |
| PatientService.DeletePatient | Business/Application/Services/PatientService.cs:130-133 | reports whether the id was stored and removes exactly that entry |
| PatientService.DeleteFreesEmail | Business/Application/Services/PatientService.cs:57-72 | after a delete the same details can be registered again |
| PatientService.GetPatientRiskLevel | Business/Application/Services/PatientService.cs:167-174 | an unknown id is an invalid operation; otherwise the domain risk level |
| PatientService.GetPatientAccommodations | Business/Application/Services/PatientService.cs:179-186 | an unknown id is an invalid operation; otherwise the domain accommodations |
| PatientService.IsPatientEligibleForAppointment | Business/Application/Services/PatientService.cs:191-198 | true iff the patient exists and is eligible for the type |
| PatientService.FollowUpSubject | Business/Application/Services/PatientService.cs:203-207 | an unknown id is an invalid operation; otherwise the stored patient |
| PatientService.UnknownPatientWrappers | Business/Application/Services/PatientService.cs:167-210 | for an unknown patient three wrappers fail while eligibility answers false, even for an emergency every known patient is eligible for |
| Model.RegisterKeepsDetails | Business/Application/Services/PatientService.cs:66-68 | a registered patient keeps every supplied detail and is active |
| PatientHandlers.CreatePatient | Application/Handlers/Patients/CreatePatientCommandHandler.cs:21-46 | refused iff some stored patient has exactly the email; otherwise stored active under the new id with the given details |
| PatientHandlers.CreateWorkflowsAgree | Application/Handlers/Patients/CreatePatientCommandHandler.cs:21-46 | the handler and the business service accept and refuse the same registrations and store the same patient |
| PatientHandlers.EmailComparisonIsCaseSensitive | Application/Handlers/Patients/CreatePatientCommandHandler.cs:28 | emails that differ only in letter case do not collide |
| PatientHandlers.KeepUnlessNonEmpty | Application/Handlers/Patients/UpdatePatientCommandHandler.cs:49-65 | an optional field is replaced only by a non-empty value |
| PatientHandlers.UpdatePatient | Application/Handlers/Patients/UpdatePatientCommandHandler.cs:21-74 | an unknown id gives nothing; every text field changes only when non-empty, birth date and active flag when supplied, with no email check |
| PatientHandlers.EmptyCommandTouchesOnlyTimestamp | Application/Handlers/Patients/UpdatePatientCommandHandler.cs:30-70 | a command of empty strings changes only the update time |
| PatientHandlers.HandlerUpdateCanReactivate | Application/Handlers/Patients/UpdatePatientCommandHandler.cs:67-68 | the handler reactivates a deactivated patient, which the business update never does |
| PatientHandlers.HandlerCannotClearOptional | Application/Handlers/Patients/UpdatePatientCommandHandler.cs:58-59 | an empty string cannot clear an optional field, which the business update does |
| PatientHandlers.HandlerUpdateCanDuplicateEmail | Application/Handlers/Patients/UpdatePatientCommandHandler.cs:37-38 | the handler gives a patient another patient's email, which the business update refuses |
| PatientHandlers.DeactivatePatient | Application/Handlers/Patients/DeactivatePatientCommandHandler.cs:16-31 | reports whether the id was stored; that patient becomes inactive and nothing else changes but its update time |
| PatientHandlers.DeactivateWorkflowsAgree | Application/Handlers/Patients/DeactivatePatientCommandHandler.cs:16-31 | the handler deactivates exactly as the business service does |
| PatientHandlers.DeletePatient | Application/Handlers/Patients/DeletePatientCommandHandler.cs:16-28 | reports whether the id was stored and removes exactly that entry |
| PatientHandlers.DeleteIgnoresActiveFlag | Application/Handlers/Patients/DeletePatientCommandHandler.cs:16-28 | a patient is removed whatever its active flag, the others kept |
| PatientHandlers.SearchPatients | Application/Handlers/Patients/SearchPatientsQueryHandler.cs:21-35 | a null, empty or white-space term is an argument error; otherwise the search's result for exactly that term |
| PatientHandlers.BlankTermIgnoresSearch | Application/Handlers/Patients/SearchPatientsQueryHandler.cs:27-31 | a blank term is refused whatever the search would do |
| PatientHandlers.TermNotTrimmed | Application/Handlers/Patients/SearchPatientsQueryHandler.cs:33 | a term with surrounding spaces is passed on untrimmed |
| PatientHandlers.NoMatchIsEmpty | Application/Handlers/Patients/SearchPatientsQueryHandler.cs:33-34 | with the Infrastructure repository's `SearchAsync` in place of `SearchPatientsAsync`, whose implementation is not part of this model, a term nobody matches gives an empty list, not an error |
| Validators.PhonePlusOnlyFirst | Application/Validators/CreatePatientCommandValidator.cs:33 | a matching phone number is non-empty and has no plus sign after its first character |
| Validators.PhoneExamples | Application/Validators/CreatePatientCommandValidator.cs:33 | "+1 (555) 123-4567" matches the phone pattern and "555.1234" does not |
| Validators.DateViolations | Application/Validators/CreateAppointmentCommandValidator.cs:16-20 | the date passes iff it is set and more than 30 minutes after now; the advance-notice rule fails exactly when it is not |
| Validators.DurationViolations | Application/Validators/CreateAppointmentCommandValidator.cs:22-30 | the duration passes iff it is set, from 15 minutes to 8 hours and a whole number of quarter hours; the 15-minute rule fails exactly below 15 minutes |
| Validators.AppointmentViolations | Application/Validators/CreateAppointmentCommandValidator.cs:8-41 | a command passes iff both ids are positive, date and duration pass, and a non-empty reason and notes fit in 100 and 1000 UTF-16 code units |
| Validators.AcceptedDurations | Application/Validators/CreateAppointmentCommandValidator.cs:22-30 | the accepted durations number 32 |
| Validators.AcceptedDurationsExactly | Application/Validators/CreateAppointmentCommandValidator.cs:22-30 | a duration passes iff it is one of the 32 quarter hours from 15 minutes to 8 hours |
| Validators.DurationExamples | Application/Validators/CreateAppointmentCommandValidator.cs:22-30 | 0, 10, 20 and 495 minutes fail and 15 and 480 minutes pass |
| Validators.AcceptedDateIsFuture | Application/Validators/CreateAppointmentCommandValidator.cs:16-20 | an accepted command's date lies in the future |
| Validators.NameEmailViolations | Application/Validators/CreatePatientCommandValidator.cs:10-28 | names pass iff not blank and at most 100 UTF-16 code units, the email iff not blank, well-formed and at most 255 UTF-16 code units |
| Validators.AstralNameTooLong | Application/Validators/CreatePatientCommandValidator.cs:10-14 | a first name of 51 characters outside the Basic Multilingual Plane is 102 UTF-16 code units long and breaks the 100 limit |
| Validators.PhoneViolations | Application/Validators/CreatePatientCommandValidator.cs:30-36 | the phone passes iff not blank, matching the pattern and at most 20 UTF-16 code units |
| Validators.BirthDateViolations | Application/Validators/CreatePatientCommandValidator.cs:38-44 | the birth date passes iff set, before today and after the same day 150 years ago |
| Validators.OptionalFieldViolations | Application/Validators/CreatePatientCommandValidator.cs:52-82 | each optional field passes when empty, and otherwise iff within its length, a listed blood type, or a matching emergency phone |
| Validators.PatientViolations | Application/Validators/CreatePatientCommandValidator.cs:8-83 | a command passes iff every field rule passes, the gender being exactly Male, Female or Other |
| Validators.GenderIsCaseSensitive | Application/Validators/CreatePatientCommandValidator.cs:46-50 | "male" is refused while "Male" passes |
| Validators.AcceptedPatientAge | Application/Validators/CreatePatientCommandValidator.cs:38-44 | an accepted patient is between 0 and 150 years old today |
| Validators.FirstLine | Application/Validators/RegisterCommandValidator.cs:38 | the text before the first line break: a prefix of the input with no line break, ended by one or by the input's end |
| Validators.FirstLineWhole | Application/Validators/RegisterCommandValidator.cs:38 | a text without a line break is its own first line |
| Validators.FirstLineStopsAtBreak | Application/Validators/RegisterCommandValidator.cs:38 | a text whose first line break is at position k has its first k characters as first line |
| Validators.PasswordViolations | Application/Validators/RegisterCommandValidator.cs:31-41 | the password passes iff not blank, 6 to 128 UTF-16 code units long, and its first line holds a lower-case letter, an upper-case letter and a digit |
| Validators.PasswordExamples | Application/Validators/RegisterCommandValidator.cs:38 | "Abc123" has all three classes and "abc\nAB1" does not, its upper-case letter being after the line break |
| Validators.RoleViolations | Application/Validators/RegisterCommandValidator.cs:51-65 | the role passes iff not blank and exactly one of the six role names |
| Validators.RegisterRoles | Application/Validators/RegisterCommandValidator.cs:51-65 | a role name is accepted iff it is the name of some role |
| Validators.OptionalRegisterViolations | Application/Validators/RegisterCommandValidator.cs:67-85 | the gender passes when empty or Male, Female or Other; address, department and employee id when empty or within 500, 100 and 50 UTF-16 code units |
| Validators.RegisterViolations | Application/Validators/RegisterCommandValidator.cs:9-86 | a registration passes iff the name, email, password, phone, role and optional rules all pass |
| Validators.RegisterNamesMatchPatient | Application/Validators/RegisterCommandValidator.cs:11-29 | the registration's name and email rules are exactly the patient validator's |
| Access.GetAppointment | Infrastructure/Api/Controllers/AppointmentsController.cs:38-68 | not found iff the id is unknown; allowed iff a Patient-role caller's claim names the appointment's patient and a Doctor-role caller's claim its doctor; forbidden otherwise |
| Access.BothRolesMustMatchBoth | Infrastructure/Api/Controllers/AppointmentsController.cs:51-65 | a caller with both roles is forbidden unless both claims match |
| Access.ListByPatient | Infrastructure/Api/Controllers/AppointmentsController.cs:74-92 | forbidden iff the caller is in the Patient role and its claim does not name the patient |
| Access.ListByDoctor | Infrastructure/Api/Controllers/AppointmentsController.cs:98-121 | allowed iff the caller is staff or a Doctor-role caller whose claim names the doctor |
| Access.ListingsAsymmetric | Infrastructure/Api/Controllers/AppointmentsController.cs:74-121 | a Nurse or a caller with no role lists any patient's appointments but no doctor's |
| Access.PatientCannotListDoctor | Infrastructure/Api/Controllers/AppointmentsController.cs:98-121 | a caller only in the Patient role never lists a doctor's appointments |
| Access.DateRange | Infrastructure/Api/Controllers/AppointmentsController.cs:128-143 | a bad request iff the start is after the end |
| Access.Details | Infrastructure/Api/Controllers/AppointmentsController.cs:175-207 | not found iff the id is unknown; allowed iff the caller is a Doctor, a Nurse, staff, or the owning patient |
| Access.DetailsLooserThanGet | Infrastructure/Api/Controllers/AppointmentsController.cs:175-207 | a caller with a role who may read an appointment may read its details, and a doctor may read the details of another doctor's appointment but not the appointment |
| Access.RolelessCaller | Infrastructure/Api/Controllers/AppointmentsController.cs:175-207 | a caller with no role reads every appointment but none of their details |
| Access.CreateAppointment | Infrastructure/Api/Controllers/AppointmentsController.cs:232-263 | forbidden iff a Patient-role caller books for another patient; created iff not and the service books it; a bad request otherwise |
| Access.WebCreateAppointment | Web/Controllers/AppointmentsController.cs:132-149 | created iff the handler books it; a missing patient or doctor escapes as an unhandled exception |
| Access.WebCreateHasNoSelfRule | Web/Controllers/AppointmentsController.cs:132-149 | a patient booking for somebody else is forbidden by the Infrastructure controller, while the Web one decides the same whoever calls |
| Access.UpdateAppointment | Infrastructure/Api/Controllers/AppointmentsController.cs:269-290 | not found iff the id is unknown; a bad request iff the service refuses the new slot; allowed otherwise, whoever calls |
| Access.UpdateOntoTakenSlot | Infrastructure/Api/Controllers/AppointmentsController.cs:269-290 | moving an appointment onto a slot another live appointment of its doctor holds is a bad request |
| Access.WebUpdateAppointment | Web/Controllers/AppointmentsController.cs:155-174 | the route's id replaces the body's; not found iff it is unknown, and the handler's update otherwise |
| Access.RouteIdOverridesBody | Web/Controllers/AppointmentsController.cs:162 | the id in the body never changes the outcome |
| Access.WebCancelAppointment | Web/Controllers/AppointmentsController.cs:180-188 | not found iff the id is unknown or already cancelled; no content otherwise |
| Access.CancelledLooksMissing | Web/Controllers/AppointmentsController.cs:180-188 | an already cancelled appointment is reported exactly like a missing one |
| Access.CancelAppointment | Infrastructure/Api/Controllers/AppointmentsController.cs:296-304 | not found iff the id is unknown; the service's refusal for want of notice escapes; no content otherwise |
| Access.DeleteAppointment | Infrastructure/Api/Controllers/AppointmentsController.cs:311-319 | not found iff the id is unknown, no content otherwise |
| Access.GetPatient | Infrastructure/Api/Controllers/PatientsController.cs:38-58 | forbidden iff a Patient-role caller asks for another id, before any lookup; then not found iff unknown |
| Access.ForbiddenBeforeLookup | Infrastructure/Api/Controllers/PatientsController.cs:44-52 | a forbidden caller learns nothing about whether the id exists |
| Access.SearchGuard | Infrastructure/Api/Controllers/PatientsController.cs:65-76 | a bad request iff the term is null, empty or white space |
| Access.SearchGuardMatchesHandler | Infrastructure/Api/Controllers/PatientsController.cs:69-72 | the controller refuses exactly the terms the search handler refuses (Application/Handlers/Patients/SearchPatientsQueryHandler.cs) |
| Access.MedicalRecords | Infrastructure/Api/Controllers/PatientsController.cs:119-144 | forbidden iff the caller is neither a Doctor or Nurse nor the patient itself; then not found iff unknown |
| Access.OfficeStaffBarredFromRecords | Infrastructure/Api/Controllers/PatientsController.cs:119-144 | administrators, managers and receptionists read a patient but not the patient's medical records |
| Access.CreatePatient | Infrastructure/Api/Controllers/PatientsController.cs:149-164 | a bad request iff the email is already held, created otherwise |
| Access.UpdatePatient | Infrastructure/Api/Controllers/PatientsController.cs:170-200 | forbidden iff a Patient-role caller names another id; then not found iff unknown, a bad request iff the new email is taken, allowed otherwise |
| Access.UpdateGuardedLikeRead | Infrastructure/Api/Controllers/PatientsController.cs:170-200 | the update is forbidden and not found for exactly the callers and ids reading is |

## Left out

- Persistence mechanics are left out because they are I/O: EF Core, migrations, eager loading (`GetWithSchedulesAsync`, `GetWithAppointmentsAsync`), `SaveChanges` timestamp stamping and foreign-key delete behaviour. Stores are maps.
- SQL translation of `ToLower`/`Contains` under database collation: the model follows the C# expression semantics. `ToLower` is ASCII-only, so culture-specific casing is not modelled.
- Identity, JWT and authentication wiring (`AuthService`, token service, login and register handlers) are left out because they are foreign library calls with signing and hashing that cannot be seen.
- Hangfire background jobs, including the Web reminder and confirmation endpoints, and the AsyncAPI file serving are left out as scheduling and I/O side effects.
- AutoMapper DTO mapping and the query handlers that only map repository results are left out; mapping is plain field copying.
- Declarative `[Authorize]` attributes are not modelled; only the role/claim decisions written in controller bodies are. Claims arrive already parsed as `Option<int>`, so an `int.Parse` failure on a non-numeric claim is not modelled.
- The CheckAvailability controller endpoints are left out because they only forward to the modelled service and handler.
- `GetRecommendedFollowUpInterval` is left out because of its `double` arithmetic: 90 × 0.7 evaluates just below 63, and the `(int)` cast gives 62. `PatientService.FollowUpSubject` models only the wrapper's patient lookup.
- PatientNumber: the `Random` draw is a parameter; its range 1000..9998 is a precondition of the format lemmas.
- Concurrency is left out, including the race between the conflict check and the insert. The model is sequential, and the clock does not move during one call, including the whole next-slot scan.
- `decimal` range and `double` precision are not modelled. Fees are exact reals, and `Prescription.RemainingDays` uses integer tick division where the source truncates `TotalDays`, a double.
- AddYears: years are unbounded, so `AddYears(-150)` does not throw for dates before year 151 as `DateTime` does.
- The MediatR handlers call a domain service whose implementation is not part of this model. Its scheduling gate and fee are function parameters of the handler models.
- CheckAvailability: the handler asks the Domain `IAppointmentRepository`, whose implementation is not part of this model. `AppointmentHandlers.CheckAvailability` uses the Infrastructure repository's `HasConflictAsync` in its place, so it and AvailableForFewerMinutes, CancelledNeverBlocks and PastSlotReportedAvailable describe the handler over that implementation only.
- The handler search calls a repository method that is not part of this model, so the search is a parameter of `PatientHandlers.SearchPatients`.
- FluentValidation's `EmailAddress()` is not part of this model, so it is an uninterpreted `isEmail` parameter of the validators.
- Regex `\d` matches only ASCII digits in the model, where .NET also accepts other Unicode decimal digits.
- The id a new appointment or patient receives is a parameter that is required to be unused.
- ScanDayAsWritten: its own contract states soundness, the window and the break as the code reads it. That it returns the first free start it tries is ScanDayAsWrittenIsFirstFree with FirstFreeIsFirst; these are lemmas because the scan unfolds in every caller.
- ScanDateAsWritten: its own contract states the missing-schedule case and soundness. The schedule window and the break are ScanDateAsWrittenInWindow, and the day bounds ScanDateAsWrittenWithinDay.
- ScanDaysAsWritten: its own contract states soundness only. The 30-day window is ScanDaysAsWrittenWithinWindow, first fit ScanDaysAsWrittenFirstFit, and the none case ScanDaysAsWrittenNoneIff.
- GetNextAvailableSlotAsWritten: its own contract states the unknown-doctor case and soundness. The 30-day window is NextSlotAsWrittenWithinWindow, with the same requirements on schedules and duration as NextSlotWithinWindow; the schedule window and the zero-length reading of a half-open break are NextSlotAsWrittenFitsSchedule.
- ScanDay: its own contract states soundness, the window and the break. The first free start is ScanDayIsFirstFree, and agreement with the code is ScanDayAgrees.
- ScanDate: its own contract states the missing-schedule case and soundness. The schedule window is ScanDateInWindow, and the first schedule is DaySchedule.
- ScanDays: its own contract states soundness only. The 30-day window is ScanDaysWithinWindow, first fit is ScanDaysFirstFit, and the none case is ScanDaysNoneIff.
- GetNextAvailableSlot: its own contract states the unknown-doctor case and soundness. The window is NextSlotWithinWindow, first fit NextSlotFirstFit, the none case NextSlotNoneIff, and agreement with the code NextSlotAgreesWithCode.
- NextSlotIsSchedulable: requires every schedule of the doctor to start at or after midnight and end by the next midnight, and the duration to be positive. For other schedules or durations it says nothing.
- NextSlotWithinWindow: has the same requirements on the schedules and the duration. A schedule that ends after midnight, or a non-positive duration, can place a slot past the 30th day.
- NextSlotAgreesWithCode: covers only doctors whose breaks have both bounds or neither. For a break with a start and no end the two scans differ, as the Findings table records.
- Accommodations are an enumeration; `PatientDomainService.Label` gives each one its source text.
- `Web/Controllers/PatientsController.cs` and `Web/Controllers/AuthController.cs` are not modelled: the first has only declarative authorization and the second is a stub.

## Findings

| source | as written | input that shows it | evidently intended | confidence | as-written member | corrected member |
|---|---|---|---|---|---|---|
| Business/Domain/Services/AppointmentDomainService.cs:191-202 | the next-slot scan reads a missing `BreakEnd` as `BreakStart`, a zero-length break, while `CanScheduleAppointmentAsync` (lines 59-63) makes such an appointment end by the break start | Monday schedule 11:30–17:00, `BreakStart` 12:00, no `BreakEnd`, 60 minutes, empty calendar, searching from the Monday 00:00 at any time before 12:00: 12:00 is offered and `CanScheduleAppointmentAsync` refuses it | every offered slot passes `CanScheduleAppointmentAsync` | medium, not executed | NextSlot.HalfBreakCounterexample | NextSlot.NextSlotIsSchedulable |
