/** The record shapes shared by the importer, the generator and the pages. */
module CertificateTypes {
  import opened Wrappers

  /** One certificate of completion. `skills` keeps its order;
      `instructorName` is the one optional field. */
  datatype Certificate = Certificate(
    id: string,
    recipientName: string,
    recipientEmail: string,
    courseName: string,
    issuerName: string,
    issueDate: string,
    completionDate: string,
    duration: string,
    grade: string,
    skills: seq<string>,
    instructorName: Option<string>,
    verificationCode: string,
    isVerified: bool,
    createdAt: string,
    updatedAt: string)

  /** The reusable course configuration applied to many recipients. */
  datatype CertificateTemplate = CertificateTemplate(
    id: string,
    name: string,
    courseName: string,
    issuerName: string,
    duration: string,
    skills: seq<string>,
    instructorName: Option<string>)

  /** One recipient of a generated certificate. */
  datatype Recipient = Recipient(name: string, email: string, grade: string)
}
