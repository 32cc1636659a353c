/** The application's domain records (catalogue stores and missions, and the user's tower). */
module Types {
  import opened Wrappers

  datatype Store = Store(id: string, name: string, category: string, products: seq<string>)

  datatype MissionRequirement = MissionRequirement(product: string, quantity: int, store: string)

  datatype Mission = Mission(id: string, name: string, description: string,
                             requirements: seq<MissionRequirement>, reward: int)

  /** A store the user has built, with the ids of the residents working in it. */
  datatype UserStore = UserStore(storeId: string, residents: seq<string>)

  datatype Resident = Resident(id: string, name: string, dreamJob: string, currentStore: Option<string>)

  datatype MissionStatus = Pending | Completed

  datatype UserMission = UserMission(missionId: string, status: MissionStatus, addedAt: int)

  datatype UserData = UserData(stores: seq<UserStore>, residents: seq<Resident>, missions: seq<UserMission>)

  /** `MAX_STORE_CAPACITY` */
  const MaxStoreCapacity: nat := 3
}

/** OCR geometry and the importer's output record. */
module ImportTypes {
  import opened Wrappers

  /** Pixel coordinates of a recognised fragment. */
  datatype BBox = BBox(x0: int, y0: int, x1: int, y1: int)

  datatype OcrLine = OcrLine(text: string, bbox: BBox)

  /** `ScreenshotResidentCandidate`: confidences are reals in 0..1. */
  datatype Candidate = Candidate(
    nameRaw: string,
    currentJobRaw: Option<string>,
    dreamJobRaw: string,
    name: string,
    currentJobStoreId: Option<string>,
    dreamJobStoreId: Option<string>,
    matchedCurrentStoreName: Option<string>,
    matchedStoreName: Option<string>,
    currentMatchConfidence: Option<real>,
    matchConfidence: real,
    selected: bool,
    issues: seq<Issue>,
    sourceFileName: string)

  /** `AUTO_SELECT_MIN_CONFIDENCE` */
  const AutoSelectMinConfidence: real := 0.85

  /** JavaScript truthiness of an optional string: present and non-empty. */
  predicate Truthy(s: Option<string>) { s.Some? && s.value != [] }

  function OrElse(a: Option<string>, b: Option<string>): Option<string> { if a.Some? then a else b }

  /** The four issue messages the extractors attach to a candidate. */
  datatype Issue = NameUnparsed | DreamUnparsed | DreamUnmatched | CurrentUnmatched

  function Message(i: Issue): (m: string)
    ensures m != []
  {
    match i
    case NameUnparsed => "Name could not be parsed"
    case DreamUnparsed => "Dream job could not be parsed"
    case DreamUnmatched => "Could not confidently match dream job to a known store"
    case CurrentUnmatched => "Could not confidently match current job to a known store"
  }
}
