# Graph Commons client: graph index, URL building and error classification

This project models the logic of the Graph Commons Python client
(`graphcommons.py`) and proves properties of it in Dafny. The client fetches
graphs, nodes and edges from a graph-data web service and wraps its JSON
answers as records. The model follows Python 2 semantics, which the client
is written for: `basestring` exists, and `map` builds its list right away,
so a graph's lists can be read any number of times. It covers three parts:

- **Entities** (`entity.dfy`): every record is a dict from field names to JSON
  values. Reading a field the record does not have as an attribute
  (`entity.id`) falls through to `dict.get` and gives None.
- **Graph index** (`graph.dfy`): `Graph` is built from a graph payload. Its
  constructor turns `edges`, `nodes`, `nodeTypes` and `edgeTypes` into entity
  lists, and an absent or falsy field gives an empty list. `get_node` is a
  first-match linear search. `edges_for`, `edges_from` and `edges_to` filter the
  edge list by the `from` or `to` field, keeping the list order. They take a
  node or an id string, and an id string is resolved through `get_node` first.
  The model includes the exceptions these operations raise.
- **API client** (`api.dfy`): `build_url` drops the empty parts of
  `[base_url, endpoint, id]` and joins the rest with `/`. For the statuses
  400, 401, 403, 404, 405 and 500, `make_request` builds an error message
  from the body. If the body does not parse as JSON, the message is the raw
  content. If it parses to an object with a `msg` field, the message is that
  field, and `make_request` raises `GraphCommonsException` with the status
  and the message. If it parses to something that is not an object,
  `bundle['msg']` raises TypeError. If the object has no `msg`, it raises
  KeyError.

JSON values are the datatype `Json.Value`. A Python exception is a
`Json.Error` value inside `Wrappers.Result`. The HTTP transport is a function
parameter (`send`) of `Api.MakeRequest`. A response is its status code, its
body parsed as JSON (`None` when parsing fails) and its raw content.

The graph class keeps the Python object's form. It holds the payload and
the four lists that `__init__` assigns, and nothing changes them afterwards.
`GetNode` is a loop proved against the function `FindNode`. Properties of
`FindNode` and of the filter `Select` are proved as lemmas. `IsSelection` is
an independent statement of what a filter returns: an order-preserving
subsequence holding every matching edge as often as it occurs in the list,
and no other edge.

An id string that no node has does not give an empty list from
`edges_from`/`edges_to` when the graph has edges. The comprehension reads
`edge[direction]` of the first edge before `node.id`. If that edge lacks the
direction key, the call raises KeyError. Otherwise it dereferences `None.id`
and raises AttributeError. There is an empty list only when the graph has
no edges (`GraphIndex.EdgesForById`, `GraphIndex.SelectSucceeds`). The graph keeps no id-keyed indexes and has no
node-type or edge-type lookup: `get_node` searches the node list.

## Model

| member | source | states |
|---|---|---|
| `GraphIndex.ToEntities` | graphcommons.py:33-34 | a successful conversion gives one entity per list element |
| `GraphIndex.ToEntitiesPreserves` | graphcommons.py:33-34 | a list of JSON objects converts to one entity per element, same length and order |
| `GraphIndex.ToEntitiesFails` | graphcommons.py:33-34 | conversion raises exactly when some element is not an object, with the exception of the first such element |
| `GraphIndex.EntityList` | graphcommons.py:33-36 | a non-empty converted list comes from a list value of the same length |
| `GraphIndex.EntityListNormalises` | graphcommons.py:33-36 | an absent or falsy payload field gives an empty list; a list of objects gives the same entities in the same order |
| `GraphIndex.EntityListFails` | graphcommons.py:33-36 | converting a field raises exactly for a truthy non-list value or a list holding a non-object |
| `GraphIndex.ReadFields` | graphcommons.py:33-36 | an absent field reads as None (the `dict.get` of line 9) and never makes construction fail: a failure needs one of the four fields present and truthy, and a payload with none of them gives four empty lists |
| `GraphIndex.Graph.constructor` | graphcommons.py:30-36 | the graph keeps its payload and holds the four converted lists |
| `GraphIndex.Graph.Load` | graphcommons.py:30-36 | construction raises exactly when one of the four lists fails to convert, with the first error in the order edges, nodes, nodeTypes, edgeTypes; otherwise it yields a fresh graph with the converted lists |
| `GraphIndex.FindNode` | graphcommons.py:38-41 | a node it returns is in the list and has the requested id |
| `GraphIndex.Graph.GetNode` | graphcommons.py:38-41 | returns the first node whose id equals the argument, and None exactly when no node has that id |
| `GraphIndex.FindNodeFirstMatch` | graphcommons.py:38-41 | the lookup is None exactly when no node has the id, and otherwise the earliest node that has it |
| `GraphIndex.FindNodeOfMember` | graphcommons.py:38-41 | looking up a node's own id finds a node with that id at or before it, and the node itself when ids are distinct |
| `GraphIndex.Select` | graphcommons.py:47-48 | a successful comprehension is no longer than the edge list and holds only edges whose direction field equals the node's id; for a None node it succeeds only on an empty list |
| `GraphIndex.SelectSucceeds` | graphcommons.py:47-48 | the comprehension succeeds exactly when every edge has the direction key and the node is not None (unless there are no edges); otherwise it raises KeyError or AttributeError as the first edge dictates |
| `GraphIndex.SelectIsSelection` | graphcommons.py:47-48 | a successful comprehension returns exactly the matching edges, as an order-preserving subsequence with their multiplicities |
| `GraphIndex.SubsequenceMembers` | graphcommons.py:47-48 | a filtered list is no longer than the edge list and holds only its edges |
| `GraphIndex.SelectionMembers` | graphcommons.py:47-48 | a selection holds an edge exactly when the edge is in the list and its direction field equals the id |
| `GraphIndex.Graph.EdgesFor` | graphcommons.py:43-48 | an id string is resolved through get_node; the result is the selection of edges whose direction field equals the node's id; with edges present it raises KeyError at the first edge lacking the key, except that an unresolved node whose first edge has the key raises AttributeError, whatever later edges hold |
| `GraphIndex.Graph.EdgesFrom` | graphcommons.py:50-51 | exactly the edges whose `from` equals the node's id, in list order, with the same failure conditions |
| `GraphIndex.Graph.EdgesTo` | graphcommons.py:53-54 | exactly the edges whose `to` equals the node's id, in list order, with the same failure conditions |
| `GraphIndex.EdgesForById` | graphcommons.py:43-48 | an id string gives the same result as the node get_node finds; for an unresolved id it gives [] when there are no edges, KeyError if the first edge lacks the direction key, and AttributeError otherwise |
| `Api.NewClient` | graphcommons.py:70-72 | the base URL is the given one unless it is missing or empty, in which case it is the default; it is never empty |
| `Api.Present` | graphcommons.py:75 | the filtered parts are exactly the parts that are neither None nor empty (membership), and there are no more of them than parts |
| `Api.PresentAppend` | graphcommons.py:75 | filtering keeps order and multiplicity: the filter of a concatenation is the concatenation of the filters, and one part is kept exactly when it is neither None nor empty |
| `Api.PresentUrlParts` | graphcommons.py:75 | filtering [base_url, endpoint, id] with a non-empty base gives the base, then the endpoint if non-empty, then the id if present and non-empty |
| `Api.Join` | graphcommons.py:76 | joining nothing gives "", and joining one part gives that part |
| `Api.JoinLength` | graphcommons.py:76 | a join is as long as the parts plus one separator between each consecutive pair |
| `Api.JoinAppend` | graphcommons.py:76 | joining two non-empty lists of parts is joining each and putting one separator between them |
| `Api.JoinUrlParts` | graphcommons.py:76 | joining the base with an optional endpoint and id gives the base followed by "/endpoint" and "/id" for the parts present |
| `Api.BuildUrl` | graphcommons.py:74-76 | for a non-empty base URL, the URL is the base URL followed by "/endpoint" and "/id", each present only when its part is non-empty |
| `Api.BuildUrlWithoutId` | graphcommons.py:74-76 | without an id the URL is base_url + "/" + endpoint |
| `Api.BuildUrlWithId` | graphcommons.py:74-76 | with an id the URL is base_url + "/" + endpoint + "/" + id |
| `Api.ErrorMessage` | graphcommons.py:78-83 | the message is the body's `msg` when the body parses, the raw content when it does not; a parsed body that is not an object raises TypeError and one without `msg` raises KeyError |
| `Api.CheckStatus` | graphcommons.py:96-102 | a response fails exactly when its status is one of `ErrorCodes` (400, 401, 403, 404, 405, 500, line 68), with GraphCommonsException carrying the status and the error message or with the message's own exception; any other response is returned unchanged |
| `Api.NotFoundScenario` | graphcommons.py:96-100 | a 404 with body {"msg": "not found"} raises GraphCommonsException(404, "not found") |
| `Api.Headers` | graphcommons.py:90-93 | every request carries exactly the headers Authentication (the API key) and Content-Type application/json |
| `Api.MakeRequest` | graphcommons.py:85-102 | the request goes to build_url(endpoint, id) with the client's headers, and its response passes the status check |

## Left out

- Entities.Attr: models attribute access only for names that neither dict nor the record class defines. Normal attribute lookup runs before `__getattr__`, so `entity.items` or `entity.keys` gives a dict method, not the field or None. None of the names the modelled code reads (`id`, `edges`, `nodes`, `nodeTypes`, `edgeTypes`) is such a name.
- The HTTP call itself (`requests.api.request`) is network I/O. It is the parameter `send` of `Api.MakeRequest`.
- JSON decoding is not modelled. A body that fails to parse (ValueError or TypeError in Python) is `None` in `Response.json`.
- Floating-point JSON numbers are not modelled. Values compare structurally, so Python's cross-type equality (`True == 1`) is not modelled either.
- `dict()` accepts a sequence of key/value pairs, such as a list of two-element lists or two-character strings. The model treats every list element that is not a JSON object as a conversion error: TypeError for None, booleans and integers, ValueError for strings and lists. For a list element that is itself a list, or is an empty string, this is approximate. `dict([])` and `dict("")` succeed with `{}`. `dict([1, 2])` raises TypeError, not ValueError. A list of two-element lists converts. For the same reason, a truthy string or object where a list is expected is a ValueError (approximate too: an object whose only key is the empty string converts to `[{}]`, because `map` iterates its keys and `dict("")` is `{}`), and a truthy number or boolean is a TypeError.
- `edges_for` is modelled for an id string or a record. Any other argument, such as None or a number, is not modelled. In Python it behaves like `Select` with a None node: `[]` when there are no edges, KeyError when the first edge lacks the direction key, and AttributeError at `node.id` otherwise.
- `build_url` takes only string ids, as `Option<string>`. Python's `join` raises TypeError for a non-string id, and an id of 0 is dropped as falsy; the model covers neither.
- `status`, `graphs`, `nodes`, `new_graph` and `update_graph` are not modelled. Each issues one request and wraps the JSON answer, which `Api.MakeRequest` and `GraphIndex.Graph.Load` already cover.
- `Entity.__repr__` is display only and depends on UTF-8 encoding.
- `extend` creates subclasses only to tag records with a type name (`Edge`, `Node`, ...). The tag has no behavioural effect, so every record is an `Entities.Entity`. Wrapping node and edge types as `Node` is the same kind of tag.
- Signal encoding, path-to-subgraph extraction and graph clearing are not part of this model: `graphcommons.py` contains no such code.
- `setup.py` is packaging metadata.
