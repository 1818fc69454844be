/** The rows of one snapshot as the report reads them, and the report's own domain rows. */
module SnapshotViews {
  import opened Text
  import opened Attribution

  datatype Address = Address(asn: Option<int>, asnLabel: string, prefix: string)

  /** A signing algorithm number with the label it is displayed under. */
  datatype Algorithm = Algorithm(number: int, display: string)

  datatype DomainView = DomainView(
    score: Option<int>,
    grade: string,
    worstLevel: string,
    nameservers: seq<string>,
    addresses: seq<Address>,
    dnssecPosture: string,
    algoWeakest: Option<Algorithm>,
    softwareVersion: string,
    tags: seq<ViewTag>)

  /** One domain whose score or grade moved. */
  datatype ReportDomain = ReportDomain(
    domain: string,
    fromScore: Option<int>,
    toScore: Option<int>,
    scoreDelta: Option<int>,
    fromGrade: string,
    toGrade: string,
    gradeChanged: bool,
    category: string,
    explainedDelta: int,
    unexplainedDelta: int)

  ghost predicate OneRowPerDomain(rows: seq<ReportDomain>) {
    forall i, j :: 0 <= i < j < |rows| ==> rows[i].domain != rows[j].domain
  }
}
