/** The plain data the input form hands to the grade engine and exporters. */
module Records {

  /** The four identity fields; free text, passed through unvalidated. */
  datatype StudentInfo = StudentInfo(name: string, rollNo: string, className: string, academicYear: string)

  /** One subject as entered: its name and its marks. */
  datatype SubjectEntry = SubjectEntry(subject: string, obtained: real, total: real)

  /** An uploaded photo. Whether the imaging library can decode it is a
      property of a library this model cannot see, so it is given as data;
      that flag alone drives behaviour, and the bytes are carried only to
      give the upload its shape. */
  datatype PhotoUpload = PhotoUpload(bytes: seq<bv8>, decodes: bool)
}
