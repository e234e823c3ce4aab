/** A contact as the tree and the list hold it: its id and a text that stands for the other fields. */
module ContactData {
  datatype Contact = Contact(id: int, details: string)
}
