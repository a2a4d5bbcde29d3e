/** The mapping shared by the components: a configured state string to a search state. */
module Component {
  import opened GitHub

  /** Exactly "open" and "closed" select those states; every other string, "all" and ""
      and "Open" among them, selects all issues. The mapping never fails. */
  function ToIssueState(state: string): (r: State)
    ensures r == Open <==> state == "open"
    ensures r == Closed <==> state == "closed"
    ensures r == All <==> state != "open" && state != "closed"
  {
    match state
    case "open" => Open
    case "closed" => Closed
    case _ => All
  }
}
