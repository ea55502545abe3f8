/** The messages of a session. */
module Messages {

  datatype Role = System | User | Assistant | Tool

  datatype Message = Message(role: Role, content: string)

  type Session = seq<Message>
}
