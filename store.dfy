/**
 * The relational store that the import scripts write through the ORM, reduced to the
 * tables they touch. Every `upsert` with `update: {}` is insert-if-absent on these
 * fields. Rows are identified by their natural keys: a course by its code, an
 * instructor by name, a department by its code, an offering by its index in
 * `offerings`.
 */
module Store {
  import opened Common

  /** A course row; credits and level are kept as the numeral text they were read from. */
  datatype Course = Course(name: string, credits: Option<string>, level: Option<string>, dept: Option<string>)

  /** An offering row: course code, term and section (`""` for none). */
  datatype Offering = Offering(course: string, term: string, section: string)

  /** A row of the imported degree plan: user id, course code, semester. */
  datatype ImportedCourse = ImportedCourse(user: nat, code: string, semester: string)

  /** The tables that `upsertSchedule` writes. */
  datatype OfferingTables = OfferingTables(
    offerings: seq<Offering>,
    instructors: set<string>,
    offeringLinks: set<(nat, string)>,
    courseLinks: set<(string, string)>)

  /** The tables that the catalog and course importers write: department names by code, and courses by code. */
  datatype CourseTables = CourseTables(departments: map<string, string>, courses: map<string, Course>)

  class Database {
    /** User ids by e-mail address. */
    var users: map<string, nat>
    /** Department names by department code. */
    var departments: map<string, string>
    var courses: map<string, Course>
    /** The offering with id `k` is `offerings[k]`. */
    var offerings: seq<Offering>
    var instructors: set<string>
    /** (offering id, instructor name) links. */
    var offeringInstructors: set<(nat, string)>
    /** (course code, instructor name) links. */
    var courseInstructors: set<(string, string)>
    var importedCourses: set<ImportedCourse>

    /** A store holding only the given users. */
    constructor (users: map<string, nat>)
      ensures this.users == users
      ensures departments == map[] && courses == map[] && offerings == []
      ensures instructors == {} && offeringInstructors == {} && courseInstructors == {}
      ensures importedCourses == {}
    {
      this.users := users;
      departments, courses, offerings := map[], map[], [];
      instructors, offeringInstructors, courseInstructors := {}, {}, {};
      importedCourses := {};
    }

    function Tables(): OfferingTables
      reads this
    {
      OfferingTables(offerings, instructors, offeringInstructors, courseInstructors)
    }

    function CourseRows(): CourseTables
      reads this
    {
      CourseTables(departments, courses)
    }
  }
}
