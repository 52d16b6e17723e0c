/**
 * Value types shared by the two test-item stores: the published test items, the results
 * reported by the test server, the stored run parameters of a file, the run token and the
 * request handed to the external test runner.
 */
module TestItemTypes {
  import opened Optional

  /** A document URI as the language server sends it. */
  type Uri = string

  /** The canonical file path a URI is stored under. */
  type Path = string

  /**
   * Status of one test item. The first three are reported by the test server; the other
   * three are set locally: not yet run, currently running, structurally broken.
   */
  datatype Status = Passed | Failed | Errored | Undetermined | Pending | Invalid

  /** Whether clicking an annotation of this status starts a run: never while Pending or Invalid. */
  predicate Navigable(s: Status): (r: bool)
    ensures r <==> s.Passed? || s.Failed? || s.Errored? || s.Undetermined?
  {
    s != Pending && s != Invalid
  }

  datatype Position = Position(line: nat, character: nat)

  datatype Range = Range(start: Position, end: Position)

  datatype Location = Location(uri: Uri, range: Range)

  datatype TestMessage = TestMessage(message: string, location: Option<Location>)

  /** One entry of a status list: a run result, or a locally synthesised status. */
  datatype TestResult = TestResult(status: Status, message: Option<seq<TestMessage>>, duration: Option<real>)

  /** A test item as published by the language server. */
  datatype TestItem = TestItem(
    id: string,
    itemLabel: string,
    range: Range,
    code: Option<string>,
    codeRange: Option<Range>,
    optionDefaultImports: Option<bool>,
    optionTags: Option<seq<string>>,
    error: Option<string>)

  /** A test error published beside the items (only the fields the variant store reads). */
  datatype TestError = TestError(range: Range, error: string)

  /** Run parameters stored per file. */
  datatype Params = Params(uri: Uri, version: int, projectPath: string, packagePath: string, packageName: string)

  /** The (uri, idx, version) triple an annotation link carries. */
  datatype RunToken = RunToken(uri: Uri, idx: nat, version: int)

  /** The request handed to the external test runner. */
  datatype RunRequest = RunRequest(
    uri: Uri,
    name: string,
    packageName: string,
    useDefaultUsings: bool,
    line: int,
    column: nat,
    code: string,
    projectPath: string,
    packagePath: string)

  /** Python truthiness of `testitem.get('error')`: present and not the empty string. */
  predicate HasError(item: TestItem) {
    item.error.Some? && item.error.value != ""
  }

  /** A status entry without message and duration, as a publish creates it. */
  function Fresh(s: Status): TestResult {
    TestResult(s, None, None)
  }
}
