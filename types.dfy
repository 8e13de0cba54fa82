/** Value types of the telegram client: templates, requests, user agents,
    the nation groups a campaign can target, and abstract API responses. */
module Types {

  datatype Option<+T> = None | Some(value: T)

  /** The exceptions the client raises synchronously, as values. */
  datatype Error =
    | DelayTooShort   // ValueError from the constructor: delay below 30
    | NoClientKey     // AttributeError from start: client key unset or empty
    | NoUserAgent     // AttributeError from start: user agent unset
    | NoProposal      // AttributeError from a campaign: proposal id missing
    | NoRegions       // AttributeError from a campaign: region(s) missing

  datatype Result<+T> = Ok(value: T) | Err(error: Error)

  /** A keyword argument of a call: either left out or passed with a value. */
  datatype Arg<+T> = Absent | Given(value: T)

  /** One message type: its secret key and telegram id. */
  datatype Template = Template(secretKey: string, tgid: string)

  /** A queued telegram: a template and the recipient as the caller wrote it. */
  datatype TelegramRequest = TelegramRequest(template: Template, recipient: string)

  /** The identification sent with every request. A dataclass instance is
      always truthy, so only its absence counts as "unset". */
  datatype UserAgent = UserAgent(nationName: string, scriptName: string, scriptVersion: string)

  /** The groups a mass campaign can target, with the enum values of the source. */
  datatype NationGroup =
    | NewWaMembers
    | AllWaMembers
    | NewFounds
    | AllWaDelegates
    | NewRegionMembers
    | AllRegionMembers
    | DelegatesApproving
    | DelegatesNotApproving
  {
    /** The enum value of the group. */
    function Value(): nat
    {
      match this
      case NewWaMembers => 0
      case AllWaMembers => 1
      case NewFounds => 2
      case AllWaDelegates => 3
      case NewRegionMembers => 4
      case AllRegionMembers => 5
      case DelegatesApproving => 7
      case DelegatesNotApproving => 9
    }

    /** Odd enum values take the one-shot path; even values the polling path. */
    function OneShot(): (r: bool)
      ensures r <==> (this.AllWaMembers? || this.AllWaDelegates? || this.AllRegionMembers?
                      || this.DelegatesApproving? || this.DelegatesNotApproving?)
      ensures !r <==> (this.NewWaMembers? || this.NewFounds? || this.NewRegionMembers?)
    {
      Value() % 2 == 1
    }

    /** No two groups share an enum value. */
    lemma ValueDistinct(other: NationGroup)
      ensures Value() == other.Value() ==> this == other
    {
    }

    predicate NeedsProposal()
    {
      this.DelegatesApproving? || this.DelegatesNotApproving?
    }

    predicate NeedsRegions()
    {
      this.AllRegionMembers? || this.NewRegionMembers?
    }
  }

  /** The `regions` argument of a campaign: absent, one string, or a list. */
  datatype Regions = NoRegionArg | OneRegion(name: string) | RegionList(names: seq<string>)
  {
    /** Python truthiness: None, "" and [] are all false. */
    predicate Truthy()
    {
      match this
      case NoRegionArg => false
      case OneRegion(name) => name != ""
      case RegionList(names) => names != []
    }
  }

  /** What the API answered to one POST: the status code, the Retry-After,
      RateLimit-Remaining and RateLimit-Reset headers read as integers, and the body. */
  datatype Response = Response(status: int, retryAfter: int, remaining: int, reset: int, body: string)

  /** Status code "Too Many Requests" (section 4 of RFC 6585). */
  const TooManyRequests := 429
}
