/** The script graph that the dashboard stores and the server sends to the agents. */
module Script {
  import opened Common

  type NodeId = string
  type Env = map<string, string>

  datatype Variable = Variable(key: string, value: string)

  datatype NodeData = NodeData(
    caption: string,  // the JSON field "label"
    command: string,
    powershell: bool,
    timeoutSeconds: int,
    url: string,
    destination: string,
    message: string,
    variables: seq<Variable>)

  datatype ScriptNode = ScriptNode(id: NodeId, kind: string, data: NodeData)

  datatype Edge = Edge(source: NodeId, target: NodeId)

  /** The values of the TEXT status columns; Other covers every string the code never compares with. */
  datatype Status = Pending | Running | Done | Failed | Partial | Other(text: string)

  /** One script_progress message, without the run and result ids that every message of a run repeats. */
  datatype Progress = Progress(
    nodeId: NodeId,
    nodeLabel: string,
    status: Status,
    output: string,
    exitCode: Option<int>,
    allDone: bool)
}
