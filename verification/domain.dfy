/** The entity the importer fills in. */
module Domain {
  import opened Results

  /** A birth date as the calendar date the parser reads: day, month and year. */
  datatype Date = Date(day: int, month: int, year: int)

  /**
   * One individual. Every field starts absent and is set by a setter of the
   * Java entity; `gedcomId` is set when the record header is found.
   */
  datatype Person = Person(
    gedcomId: Option<string>,
    firstName: Option<string>,
    lastName: Option<string>,
    sex: Option<string>,
    birthday: Option<Date>,
    birthplace: Option<string>)

  /** `new Person()` followed by `setGedcodmID(id)`. */
  function NewPerson(id: string): (p: Person)
    ensures p.gedcomId == Some(id)
    ensures p.firstName.None? && p.lastName.None? && p.sex.None?
    ensures p.birthday.None? && p.birthplace.None?
  {
    Person(Some(id), None, None, None, None, None)
  }
}
