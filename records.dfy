/** The student record shared by the backend entity and the frontend table rows. */
module Records {

  /** A stored student: the identifier is assigned by the persistence layer;
      name, email and gender are free text (gender is not validated). */
  datatype Student = Student(id: int, name: string, email: string, gender: string)

}
