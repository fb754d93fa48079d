/** The status of an active request, in the order of the source's list. */
module RequestStatus {

  datatype Status = Waiting | Translation | InProgress | Missing
}
