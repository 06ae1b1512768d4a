/** The coordinator of dcrack: its tables, and what each request does to them. A dictionary is worked
    off in chunks of 5,000,000 lines; a row of the work table is a chunk that is assigned (state 1) or
    reported without success (state 2). */
module DcrackTables {
  import opened Options

  const CHUNK: int := 5000000
  const EXPIRY: int := 3600

  datatype Work = Work(id: nat, net: string, dict: string, start: int, end: int, last: int, state: int)
  datatype Net = Net(bssid: string, pass: Option<string>, state: int)
  datatype Dict = Dict(id: string, lines: nat, current: bool)
  datatype Db = Db(nets: seq<Net>, dicts: seq<Dict>, work: seq<Work>)

  /** A range of lines of one dictionary, for one network. */
  datatype Chunk = Chunk(net: string, dict: string, start: int, end: int)

  function ChunkOf(r: Work): Chunk {
    Chunk(r.net, r.dict, r.start, r.end)
  }

  // ---------------------------------------------------------------- queries

  /** The rows that satisfy a condition, in table order. */
  function Where<T(!new)>(rows: seq<T>, p: T -> bool): (r: seq<T>)
    ensures forall x :: x in r <==> x in rows && p(x)
    ensures |r| <= |rows|
  {
    if rows == [] then []
    else Where(rows[..|rows| - 1], p) + (if p(rows[|rows| - 1]) then [rows[|rows| - 1]] else [])
  }

  /** Rows are told apart by their id, and by the chunk they stand for. */
  predicate Unique(work: seq<Work>) {
    forall i, j :: 0 <= i < j < |work| ==> Apart(work[i], work[j])
  }

  predicate Apart(a: Work, b: Work) {
    a.id != b.id && !(a.net == b.net && a.dict == b.dict && a.start == b.start)
  }

  lemma {:induction false} UniqueWhere(work: seq<Work>, p: Work -> bool)
    requires Unique(work)
    ensures Unique(Where(work, p))
  {
    if work != [] {
      var n := |work| - 1;
      UniqueWhere(work[..n], p);
      forall r | r in Where(work[..n], p)
        ensures Apart(r, work[n])
      {
        var k :| 0 <= k < n && work[k] == r;
      }
    }
  }

  lemma UniqueAdd(work: seq<Work>, r: Work)
    requires Unique(work) && forall k :: 0 <= k < |work| ==> Apart(work[k], r)
    ensures Unique(work + [r])
  {
  }

  /** Rows of one network and dictionary. */
  function Of(work: seq<Work>, net: string, dict: string): seq<Work> {
    Where(work, (r: Work) => r.net == net && r.dict == dict)
  }

  function Done(work: seq<Work>): seq<Work> {
    Where(work, (r: Work) => r.state == 2)
  }

  /** The id of the next row to be inserted. */
  function NextId(work: seq<Work>): (id: nat)
    ensures forall r :: r in work ==> r.id < id
  {
    if work == [] then 0
    else
      var id := NextId(work[..|work| - 1]);
      var r := work[|work| - 1];
      assert forall x :: x in work ==> x in work[..|work| - 1] || x == r;
      if r.id >= id then r.id + 1 else id
  }

  predicate Sorted(rows: seq<Work>) {
    forall i, j :: 0 <= i < j < |rows| ==> rows[i].start <= rows[j].start
  }

  predicate Strict(rows: seq<Work>) {
    forall i, j :: 0 <= i < j < |rows| ==> rows[i].start < rows[j].start
  }

  function Insert(r: Work, rows: seq<Work>): (s: seq<Work>)
    requires Sorted(rows)
    ensures Sorted(s) && |s| == |rows| + 1
    ensures forall x :: x in s <==> x == r || x in rows
  {
    if rows == [] then [r]
    else if r.start <= rows[0].start then [r] + rows
    else
      var rest := Insert(r, rows[1..]);
      assert forall x :: x in rest ==> rows[0].start <= x.start;
      [rows[0]] + rest
  }

  lemma {:induction false} InsertStrict(r: Work, rows: seq<Work>)
    requires Strict(rows) && Sorted(rows) && forall x :: x in rows ==> x.start != r.start
    ensures Strict(Insert(r, rows))
  {
    if rows != [] && r.start > rows[0].start {
      InsertStrict(r, rows[1..]);
      assert forall x :: x in Insert(r, rows[1..]) ==> rows[0].start < x.start;
    }
  }

  /** ORDER BY start */
  function ByStart(rows: seq<Work>): (s: seq<Work>)
    ensures Sorted(s) && |s| == |rows|
    ensures forall x :: x in s <==> x in rows
  {
    if rows == [] then []
    else
      assert forall x :: x in rows <==> x in rows[..|rows| - 1] || x == rows[|rows| - 1];
      Insert(rows[|rows| - 1], ByStart(rows[..|rows| - 1]))
  }

  predicate DistinctStarts(rows: seq<Work>) {
    forall i, j :: 0 <= i < j < |rows| ==> rows[i].start != rows[j].start
  }

  lemma {:induction false} ByStartStrict(rows: seq<Work>)
    requires DistinctStarts(rows)
    ensures Strict(ByStart(rows))
  {
    if rows != [] {
      ByStartStrict(rows[..|rows| - 1]);
      InsertStrict(rows[|rows| - 1], ByStart(rows[..|rows| - 1]));
    }
  }

  /** The rows of one network and dictionary have distinct starts. */
  lemma OfDistinct(work: seq<Work>, net: string, dict: string)
    requires Unique(work)
    ensures DistinctStarts(Of(work, net, dict)) && DistinctStarts(Of(Done(work), net, dict))
  {
    UniqueWhere(work, (r: Work) => r.net == net && r.dict == dict);
    UniqueWhere(work, (r: Work) => r.state == 2);
    UniqueWhere(Done(work), (r: Work) => r.net == net && r.dict == dict);
    DistinctOf(Of(work, net, dict), net, dict);
    DistinctOf(Of(Done(work), net, dict), net, dict);
  }

  lemma DistinctOf(rows: seq<Work>, net: string, dict: string)
    requires Unique(rows) && forall r :: r in rows ==> r.net == net && r.dict == dict
    ensures DistinctStarts(rows)
  {
    forall i, j | 0 <= i < j < |rows|
      ensures rows[i].start != rows[j].start
    {
      assert rows[i] in rows && rows[j] in rows && Apart(rows[i], rows[j]);
    }
  }

  // ---------------------------------------------------------------- chunks

  /** [start, end) is a chunk of a dictionary of that many lines. */
  predicate IsChunk(start: int, end: int, lines: int) {
    && 0 <= start < lines && start % CHUNK == 0
    && end == if start + CHUNK <= lines then start + CHUNK else lines
  }

  predicate Chunks(rows: seq<Work>, lines: int) {
    forall r :: r in rows ==> IsChunk(r.start, r.end, lines)
  }

  predicate Covers(rows: seq<Work>, n: int) {
    exists r :: r in rows && r.start <= n < r.end
  }

  /** The least line from n on that no row covers, or `lines` if there is none. */
  function FirstFree(rows: seq<Work>, n: int, lines: int): (i: int)
    requires n <= lines
    ensures n <= i <= lines
    ensures forall k :: n <= k < i ==> Covers(rows, k)
    ensures i < lines ==> !Covers(rows, i)
    decreases lines - n
  {
    if n == lines then lines
    else if Covers(rows, n) then FirstFree(rows, n + 1, lines)
    else n
  }

  /** The first k rows cover exactly the lines before i; the others lie behind. */
  predicate Prefix(rows: seq<Work>, k: nat, i: int, lines: int) {
    && k <= |rows| && 0 <= i <= lines && (i % CHUNK == 0 || i == lines)
    && (forall n :: 0 <= n < i ==> Covers(rows, n))
    && (forall j :: 0 <= j < k ==> rows[j].end <= i)
    && (forall j :: k <= j < |rows| ==> rows[j].start >= i)
  }

  lemma PrefixStart(rows: seq<Work>, lines: int)
    requires Chunks(rows, lines) && 0 <= lines
    ensures Prefix(rows, 0, 0, lines)
  {
  }

  /** Two chunks of a dictionary are the same or do not meet. */
  lemma ChunkGap(a: int, e: int, b: int, f: int, lines: int)
    requires IsChunk(a, e, lines) && IsChunk(b, f, lines)
    ensures a == b || e <= b || f <= a
    ensures a < b ==> e == a + CHUNK <= b
  {
  }

  lemma PrefixNext(rows: seq<Work>, k: nat, i: int, lines: int)
    requires Chunks(rows, lines) && Strict(rows) && Prefix(rows, k, i, lines) && k < |rows| && rows[k].start == i
    ensures Prefix(rows, k + 1, rows[k].end, lines)
  {
    var e := rows[k].end;
    forall n | 0 <= n < e
      ensures Covers(rows, n)
    {
      if n >= i { assert rows[k] in rows; }
    }
    forall j | k + 1 <= j < |rows|
      ensures rows[j].start >= e
    {
      assert rows[j] in rows && rows[k] in rows;
      ChunkGap(i, e, rows[j].start, rows[j].end, lines);
    }
  }

  /** Where the next row does not begin, or there is none, the first free line is found. */
  lemma PrefixEnd(rows: seq<Work>, k: nat, i: int, lines: int)
    requires Chunks(rows, lines) && Strict(rows) && Prefix(rows, k, i, lines) && (k < |rows| ==> rows[k].start > i)
    ensures FirstFree(rows, 0, lines) == i
    ensures i < lines ==> forall j :: k <= j < |rows| ==> i + CHUNK <= rows[j].start
  {
    forall r | r in rows
      ensures !(r.start <= i < r.end)
    {
      var j :| 0 <= j < |rows| && rows[j] == r;
      assert k < j ==> rows[k].start < rows[j].start;
    }
    assert !Covers(rows, i);
    var f := FirstFree(rows, 0, lines);
    assert f < i ==> Covers(rows, f);
    assert forall j :: k <= j < |rows| ==> rows[j] in rows && IsChunk(rows[j].start, rows[j].end, lines);
  }

  lemma FirstFreeSame(rows: seq<Work>, rows': seq<Work>, lines: int)
    requires 0 <= lines && forall r :: r in rows <==> r in rows'
    ensures FirstFree(rows, 0, lines) == FirstFree(rows', 0, lines)
  {
    var f, f' := FirstFree(rows, 0, lines), FirstFree(rows', 0, lines);
    assert forall n :: Covers(rows, n) <==> Covers(rows', n);
    assert f < f' ==> Covers(rows', f);
    assert f' < f ==> Covers(rows, f');
  }

  // ---------------------------------------------------------------- dictionaries and networks

  /** The number of lines of a dictionary, 0 if it is unknown. */
  function Lines(dicts: seq<Dict>, id: string): nat {
    if dicts == [] then 0 else if dicts[0].id == id then dicts[0].lines else Lines(dicts[1..], id)
  }

  /** The id of a dictionary is the hash of its contents: equal ids, equal lines. */
  predicate DictsOk(dicts: seq<Dict>) {
    forall d :: d in dicts ==> d.lines > 0 && d.lines == Lines(dicts, d.id)
  }

  lemma {:induction false} LinesAdd(dicts: seq<Dict>, d: Dict, id: string)
    ensures Lines(dicts + [d], id) ==
            if (exists x :: x in dicts && x.id == id) then Lines(dicts, id) else if d.id == id then d.lines else 0
  {
    if dicts != [] {
      assert (dicts + [d])[1..] == dicts[1..] + [d];
      LinesAdd(dicts[1..], d, id);
      assert forall x :: x in dicts <==> x == dicts[0] || x in dicts[1..];
    }
  }

  /** UPDATE dict set current = ... */
  function SetCurrent(dicts: seq<Dict>, id: string): (ds: seq<Dict>)
    ensures |ds| == |dicts| && forall k :: 0 <= k < |ds| ==> ds[k] == Dict(dicts[k].id, dicts[k].lines, dicts[k].id == id)
  {
    if dicts == [] then []
    else [Dict(dicts[0].id, dicts[0].lines, dicts[0].id == id)] + SetCurrent(dicts[1..], id)
  }

  lemma {:induction false} LinesSetCurrent(dicts: seq<Dict>, id: string, id': string)
    ensures Lines(SetCurrent(dicts, id), id') == Lines(dicts, id')
  {
    if dicts != [] { LinesSetCurrent(dicts[1..], id, id'); }
  }

  function Current(dicts: seq<Dict>): (d: Option<Dict>)
    ensures d.Some? ==> d.value in dicts && d.value.current
    ensures d.None? ==> forall x :: x in dicts ==> !x.current
  {
    if dicts == [] then None else if dicts[0].current then Some(dicts[0]) else Current(dicts[1..])
  }

  /** SELECT * from nets where bssid = ?, the first row. */
  function FirstNet(nets: seq<Net>, bssid: string): (n: Option<Net>)
    ensures n.Some? ==> n.value in nets && n.value.bssid == bssid
    ensures n.None? ==> forall x :: x in nets ==> x.bssid != bssid
  {
    if nets == [] then None else if nets[0].bssid == bssid then Some(nets[0]) else FirstNet(nets[1..], bssid)
  }

  function WithoutBssid(nets: seq<Net>, bssid: string): seq<Net> {
    Where(nets, (n: Net) => n.bssid != bssid)
  }

  function Active(nets: seq<Net>): seq<Net> {
    Where(nets, (n: Net) => n.state == 1)
  }

  /** UPDATE nets set state = 2, and the password if there is one. */
  function Closed(nets: seq<Net>, bssid: string, pass: Option<string>): (ns: seq<Net>)
    ensures |ns| == |nets|
    ensures forall k :: 0 <= k < |ns| ==>
              ns[k] == if nets[k].bssid == bssid then Net(bssid, if pass.Some? then pass else nets[k].pass, 2) else nets[k]
  {
    seq(|nets|, k requires 0 <= k < |nets| =>
      if nets[k].bssid == bssid then Net(bssid, if pass.Some? then pass else nets[k].pass, 2) else nets[k])
  }

  // ---------------------------------------------------------------- requests

  /** The chunk to work on next: it begins at the least line that no row covers. */
  function NextChunk(work: seq<Work>, net: string, d: Dict): Option<Chunk> {
    var i := FirstFree(Of(work, net, d.id), 0, d.lines);
    if i == d.lines then None
    else Some(Chunk(net, d.id, i, if i + CHUNK <= d.lines then i + CHUNK else d.lines))
  }

  /** The first of the networks for which there is one. */
  function FirstChunk(work: seq<Work>, nets: seq<Net>, d: Dict): Option<Chunk> {
    if nets == [] then None
    else
      var c := NextChunk(work, nets[0].bssid, d);
      if c.Some? then c else FirstChunk(work, nets[1..], d)
  }

  function Assigned(work: seq<Work>, c: Chunk, now: int): seq<Work> {
    work + [Work(NextId(work), c.net, c.dict, c.start, c.end, now, 1)]
  }

  function Unexpired(work: seq<Work>, now: int): seq<Work> {
    Where(work, (r: Work) => !(now - r.last > EXPIRY && r.state == 1))
  }

  /** The assigned row that has waited longest. */
  function Oldest(work: seq<Work>): (r: Option<Work>)
    ensures r.Some? ==> r.value in work && r.value.state == 1
    ensures r.Some? ==> forall x :: x in work && x.state == 1 ==> r.value.last <= x.last
    ensures r.None? ==> forall x :: x in work ==> x.state != 1
  {
    if work == [] then None
    else
      var r, x := Oldest(work[..|work| - 1]), work[|work| - 1];
      assert forall y :: y in work ==> y in work[..|work| - 1] || y == x;
      if x.state == 1 && (r.None? || x.last < r.value.last) then Some(x) else r
  }

  function WithoutId(work: seq<Work>, id: nat): seq<Work> {
    Where(work, (r: Work) => r.id != id)
  }

  function WithoutNet(work: seq<Work>, net: string): seq<Work> {
    Where(work, (r: Work) => r.net != net)
  }

  /** UPDATE work set state = 2 where the row is this chunk. */
  function Marked(work: seq<Work>, c: Chunk): (w: seq<Work>)
    ensures |w| == |work|
    ensures forall k :: 0 <= k < |w| ==> w[k] == if ChunkOf(work[k]) == c then work[k].(state := 2) else work[k]
  {
    seq(|work|, k requires 0 <= k < |work| => if ChunkOf(work[k]) == c then work[k].(state := 2) else work[k])
  }

  predicate HasChunk(work: seq<Work>, c: Chunk) {
    exists r :: r in work && ChunkOf(r) == c
  }

  /** The table after a chunk has been reported. */
  function Reported(work: seq<Work>, c: Chunk, now: int): seq<Work> {
    if HasChunk(work, c) then Marked(work, c)
    else work + [Work(NextId(work), c.net, c.dict, c.start, c.end, now, 2)]
  }

  /** Every line of the dictionary has been reported. */
  predicate Complete(work: seq<Work>, net: string, dict: string, lines: int) {
    forall n :: 0 <= n < lines ==> Covers(Of(Done(work), net, dict), n)
  }
}
