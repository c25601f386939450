/** The three record types the stores hold. Dates are integer timestamps
    (milliseconds since the epoch); the application only compares them. */
module Records {
  import opened Common

  type Timestamp = int

  datatype Role = RoleAccountant | RoleClient

  /** A signed-in identity of the session store. */
  datatype User = User(id: string, email: string, name: string, role: Role)

  /** A client record of the client registry; phone and company are optional. */
  datatype Client = Client(
    id: string,
    name: string,
    email: string,
    phone: Option<string>,
    company: Option<string>,
    createdAt: Timestamp)

  /** A document of the document registry. `fileType` is the source's `type`
      field; `url` is an opaque object reference; `clientId` is a weak
      reference that nothing checks against the client registry. */
  datatype Document = Document(
    id: string,
    name: string,
    fileType: string,
    size: nat,
    uploadedAt: Timestamp,
    clientId: string,
    url: string)

  function UploadedAt(d: Document): Timestamp { d.uploadedAt }

  function CreatedAt(c: Client): Timestamp { c.createdAt }
}
