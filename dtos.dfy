/**
 * The request bodies and response views of dtos/dtos.py. Request fields that are `Optional`
 * are `Option`s; `None` in a view field is `None` here. A view's `gender` and `faculty` hold
 * the enum's string value, as pydantic stores an enum member given for a `str` field.
 */
module Dtos {
  import opened Basics
  import opened Enums
  import opened Timestamps

  datatype BuildingInfo = BuildingInfo(id: int, name: string, code: string,
                                       rooms: Option<seq<RoomInfo>>,
                                       createdAt: string, lastEdited: string)

  datatype RoomInfo = RoomInfo(id: int, name: string, code: string,
                               building: Option<BuildingInfo>, capacity: int,
                               reservations: Option<seq<RoomReservationInfo>>)

  datatype RoomReservationInfo = RoomReservationInfo(id: int, schedule: Option<ScheduleInfo>,
                                                     room: Option<RoomInfo>,
                                                     lecturer: Option<LecturerInfo>,
                                                     date: string, startBlock: string,
                                                     endBlock: string,
                                                     createdAt: string, lastEdited: string)

  datatype LecturerInfo = LecturerInfo(id: int, username: string, firstName: string,
                                       lastName: string, email: string, dob: string,
                                       gender: string, enabled: bool, active: bool,
                                       faculty: string,
                                       schedules: Option<seq<ScheduleInfo>>,
                                       reservations: Option<seq<RoomReservationInfo>>,
                                       createdAt: string, lastEdited: string)

  datatype ScheduleInfo = ScheduleInfo(id: int, reservations: Option<seq<RoomReservationInfo>>,
                                       lecturer: Option<LecturerInfo>, course: string,
                                       startBlock: string, endBlock: string,
                                       createdAt: string, lastEdited: string)

  datatype RoomCreate = RoomCreate(name: string, code: string, buildingId: int, capacity: int)

  datatype RoomUpdate = RoomUpdate(name: Option<string>, code: Option<string>,
                                   buildingId: Option<int>, capacity: Option<int>)

  datatype RoomReservationCreate = RoomReservationCreate(roomId: Option<int>,
                                                         scheduleId: Option<int>,
                                                         lecturerId: Option<int>,
                                                         date: Option<string>,
                                                         startBlock: Option<string>,
                                                         endBlock: Option<string>)

  datatype RoomReservationUpdate = RoomReservationUpdate(roomId: Option<int>,
                                                         scheduleId: Option<int>,
                                                         lecturerId: Option<int>,
                                                         date: Option<string>,
                                                         startBlock: Option<string>,
                                                         endBlock: Option<string>)

  datatype LecturerCreate = LecturerCreate(username: string, password: string,
                                           firstName: string, lastName: string, email: string,
                                           dob: string, faculty: Faculty, gender: Gender)

  /** `LectureUpdate`: pydantic has already parsed `dob` into a datetime. */
  datatype LectureUpdate = LectureUpdate(username: Option<string>, password: Option<string>,
                                         firstName: Option<string>, lastName: Option<string>,
                                         email: Option<string>, dob: Option<DateTime>,
                                         faculty: Option<Faculty>, gender: Option<Gender>)

  datatype ScheduleCreate = ScheduleCreate(lecturerId: int, course: string,
                                           startBlock: string, endBlock: string)

  datatype ScheduleUpdate = ScheduleUpdate(lecturerId: Option<int>, course: Option<string>,
                                           startBlock: Option<string>, endBlock: Option<string>)
}
