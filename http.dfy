/** The HTTP notions the services share: request methods and error replies. */
module Http {
  datatype Method = Get | Post

  /** An HTTPException: its status code and detail message. */
  datatype HttpError = HttpError(status: nat, detail: string)
}
