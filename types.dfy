/** The records shared by the chat front end: messages and the files attached to them. */
module Types {
  import opened Wrappers

  datatype Role = User | Assistant

  /** The `type` of an attachment or a workspace file. */
  datatype FileKind = File | Image

  /** An attachment; `content` is absent until it has been fetched. */
  datatype FileAttachment = FileAttachment(name: string, kind: FileKind, content: Option<string>)

  /** A chat message; `attachments` is absent on assistant messages. */
  datatype Message = Message(id: string, role: Role, content: string, attachments: Option<seq<FileAttachment>>)

  /** A file of the workspace as the host lists it. */
  datatype WorkspaceFile = WorkspaceFile(name: string, kind: FileKind)

  /** A workspace file used as an attachment: same name and kind, no content yet. */
  function AsAttachment(f: WorkspaceFile): FileAttachment {
    FileAttachment(f.name, f.kind, None)
  }
}
