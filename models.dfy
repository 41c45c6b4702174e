/** The records both services share: the server profile and what an action reports. */
module Models {

  /** One stored server profile (`ServerDTO`); read-only while an import or export runs. */
  datatype Server = Server(
    name: string,
    companyId: int,
    username: string,
    password: string,
    userCode: string,
    confirmExporting: bool)

  /** How an action ends for the user: an information message or an error message. */
  datatype Report = Success | Failure(message: string)
}
