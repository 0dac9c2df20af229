/**
 The log bridge: tracing fields captured when a span is created, attributes written to
 a span later, and the walk over enclosing spans that copies both onto a log record.
 */
module LogBridge {
  import opened Options
  import opened Sequences
  import Text

  type Key = string

  datatype Value = Str(text: string) | Bool(b: bool) | Int(i: int)

  datatype Attr = Attr(key: Key, value: Value)

  // One span and its extensions. A parent is always created before its children.
  datatype Span = Span(parent: Option<nat>, tracked: Option<map<Key, string>>, attrs: Option<seq<Attr>>)

  function TrackedOf(span: Span): map<Key, string> {
    if span.tracked.Some? then span.tracked.value else map[]
  }

  function AttrsOf(span: Span): seq<Attr> {
    if span.attrs.Some? then span.attrs.value else []
  }

  // The value of the first attribute called `key`.
  function FirstMatch(attrs: seq<Attr>, key: Key): Option<Value> {
    if attrs == [] then None
    else
      var earlier := FirstMatch(Front(attrs), key);
      if earlier.Some? then earlier else if Last(attrs).key == key then Some(Last(attrs).value) else None
  }

  // ---------------------------------------------------------------------------
  // Attributes written to spans
  // ---------------------------------------------------------------------------

  // The position of the first attribute called `key`, or the length without one.
  function IndexOf(attrs: seq<Attr>, key: Key): (i: nat)
    ensures i <= |attrs|
    ensures i < |attrs| ==> attrs[i].key == key
    ensures forall j :: 0 <= j < i ==> attrs[j].key != key
  {
    if attrs == [] then 0
    else
      var i := IndexOf(Front(attrs), key);
      if i < |attrs| - 1 then i else if Last(attrs).key == key then i else |attrs|
  }

  // Overwrites the value of `key` where it stands, or appends it.
  function Put(attrs: seq<Attr>, attr: Attr): seq<Attr> {
    var i := IndexOf(attrs, attr.key);
    if i < |attrs| then attrs[i := attr] else attrs + [attr]
  }

  datatype Write = Write(span: nat, attr: Attr)

  // A write to a span that is not there does nothing.
  function WriteStep(spans: seq<Span>, w: Write): (r: seq<Span>)
    ensures |r| == |spans|
  {
    if w.span >= |spans| then spans
    else spans[w.span := spans[w.span].(attrs := Some(Put(AttrsOf(spans[w.span]), w.attr)))]
  }

  function WriteAll(spans: seq<Span>, ws: seq<Write>): (r: seq<Span>)
    ensures |r| == |spans|
  {
    if ws == [] then spans else WriteStep(WriteAll(spans, Front(ws)), Last(ws))
  }

  // What was written to one span, in order.
  function WrittenTo(ws: seq<Write>, span: nat): seq<Attr> {
    if ws == [] then []
    else
      var earlier := WrittenTo(Front(ws), span);
      if Last(ws).span == span then earlier + [Last(ws).attr] else earlier
  }

  // The keys written, in the order of their first write.
  function KeysInOrder(written: seq<Attr>): (keys: seq<Key>)
    ensures forall i, j :: 0 <= i < j < |keys| ==> keys[i] != keys[j]
  {
    if written == [] then []
    else
      var earlier := KeysInOrder(Front(written));
      if Last(written).key in earlier then earlier else earlier + [Last(written).key]
  }

  function LastWritten(written: seq<Attr>, key: Key): Option<Value> {
    if written == [] then None
    else if Last(written).key == key then Some(Last(written).value)
    else LastWritten(Front(written), key)
  }

  // `attrs` is the map from each key written to its last value, in insertion order.
  ghost predicate IsLastWriteMap(attrs: seq<Attr>, written: seq<Attr>) {
    && |attrs| == |KeysInOrder(written)|
    && forall i :: 0 <= i < |attrs| ==>
         attrs[i].key == KeysInOrder(written)[i] && Some(attrs[i].value) == LastWritten(written, attrs[i].key)
  }

  lemma PutKeepsLastWriteMap(attrs: seq<Attr>, written: seq<Attr>, attr: Attr)
    requires IsLastWriteMap(attrs, written)
    ensures IsLastWriteMap(Put(attrs, attr), written + [attr])
  {
    var all := written + [attr];
    assert Front(all) == written;
    var keys, i := KeysInOrder(written), IndexOf(attrs, attr.key);
    if i < |attrs| {
      assert keys[i] == attr.key;
    } else {
      forall j | 0 <= j < |keys|
        ensures keys[j] != attr.key
      {
        assert keys[j] == attrs[j].key;
      }
    }
  }

  // Over any sequence of writes across spans, every span holds one value for each
  // key written to it, the last, in the order of first insertion; what is written
  // to other spans, and what it tracked at creation, does not matter.
  lemma {:induction false} WritesRefineOneMapPerSpan(spans: seq<Span>, ws: seq<Write>, id: nat)
    requires id < |spans| && spans[id].attrs.None?
    ensures var span := WriteAll(spans, ws)[id];
            && IsLastWriteMap(AttrsOf(span), WrittenTo(ws, id))
            && span.tracked == spans[id].tracked && span.parent == spans[id].parent
  {
    if ws != [] {
      WritesRefineOneMapPerSpan(spans, Front(ws), id);
      if Last(ws).span == id {
        PutKeepsLastWriteMap(AttrsOf(WriteAll(spans, Front(ws))[id]), WrittenTo(Front(ws), id), Last(ws).attr);
      }
    }
  }

  // ---------------------------------------------------------------------------
  // The walk over enclosing spans
  // ---------------------------------------------------------------------------

  // A hash map gives its entries in any order, each once.
  ghost predicate IsListing(entries: seq<Attr>, tracked: map<Key, string>) {
    && (forall a :: a in entries <==> a.key in tracked && a.value == Str(tracked[a.key]))
    && |entries| == |tracked|
  }

  // What one span contributes: its tracked fields in some order, then its attributes.
  datatype Block = Block(listing: seq<Attr>, attrs: seq<Attr>)

  // What a block copies onto a record.
  function Copied(block: Block): seq<Attr> {
    block.listing + block.attrs
  }

  ghost predicate IsBlock(block: Block, span: Span) {
    IsListing(block.listing, TrackedOf(span)) && block.attrs == AttrsOf(span)
  }

  // What a chain of spans, nearest first, contributes.
  ghost predicate IsWalk(blocks: seq<Block>, chain: seq<Span>) {
    |blocks| == |chain| && forall i :: 0 <= i < |chain| ==> IsBlock(blocks[i], chain[i])
  }

  function Flatten(blocks: seq<Block>): seq<Attr> {
    if blocks == [] then [] else Flatten(Front(blocks)) + Copied(Last(blocks))
  }

  predicate Holds(span: Span, key: Key) {
    key in TrackedOf(span) || FirstMatch(AttrsOf(span), key).Some?
  }

  // A field tracked at creation before an attribute written later.
  function ValueIn(span: Span, key: Key): Option<Value> {
    if key in TrackedOf(span) then Some(Str(TrackedOf(span)[key])) else FirstMatch(AttrsOf(span), key)
  }

  lemma {:induction false} FirstMatchOfConcat(a: seq<Attr>, b: seq<Attr>, key: Key)
    ensures FirstMatch(a + b, key) == if FirstMatch(a, key).Some? then FirstMatch(a, key) else FirstMatch(b, key)
  {
    if b == [] {
      assert a + b == a;
    } else {
      FirstMatchOfConcat(a, Front(b), key);
      assert Front(a + b) == a + Front(b);
    }
  }

  lemma {:induction false} FirstMatchIsMember(attrs: seq<Attr>, key: Key)
    ensures FirstMatch(attrs, key).Some? ==> Attr(key, FirstMatch(attrs, key).value) in attrs
    ensures FirstMatch(attrs, key).None? ==> forall a :: a in attrs ==> a.key != key
  {
    if attrs != [] {
      FirstMatchIsMember(Front(attrs), key);
      assert attrs == Front(attrs) + [Last(attrs)];
    }
  }

  lemma BlockAnswersForSpan(block: Block, span: Span, key: Key)
    requires IsBlock(block, span)
    ensures FirstMatch(Copied(block), key) == ValueIn(span, key)
  {
    FirstMatchOfConcat(block.listing, block.attrs, key);
    FirstMatchIsMember(block.listing, key);
    if key in TrackedOf(span) {
      assert Attr(key, Str(TrackedOf(span)[key])) in block.listing;
    }
  }

  // The nearest span of a chain that holds `key`, or the length without one.
  function Nearest(chain: seq<Span>, key: Key): (i: nat)
    ensures i <= |chain|
    ensures i < |chain| ==> Holds(chain[i], key)
    ensures forall j :: 0 <= j < i ==> !Holds(chain[j], key)
  {
    if chain == [] then 0
    else
      var i := Nearest(Front(chain), key);
      if i < |chain| - 1 then i else if Holds(Last(chain), key) then i else |chain|
  }

  // The value a chain gives `key` by lexical scoping.
  function ScopedValue(chain: seq<Span>, key: Key): Option<Value> {
    var i := Nearest(chain, key);
    if i < |chain| then ValueIn(chain[i], key) else None
  }

  lemma ScopedValueOfLast(chain: seq<Span>, key: Key)
    requires chain != []
    ensures ScopedValue(chain, key) ==
            if Nearest(Front(chain), key) < |chain| - 1 then ScopedValue(Front(chain), key)
            else ValueIn(Last(chain), key)
    ensures Nearest(Front(chain), key) < |chain| - 1 <==> ScopedValue(Front(chain), key).Some?
  {
  }

  // Looking a key up by its first match is lexical scoping: it finds the value in
  // the nearest enclosing span that holds the key, whatever order the hash maps
  // give, and nothing exactly where no enclosing span holds it.
  lemma {:induction false} FirstMatchIsLexicalScoping(blocks: seq<Block>, chain: seq<Span>, key: Key)
    requires IsWalk(blocks, chain)
    ensures FirstMatch(Flatten(blocks), key) == ScopedValue(chain, key)
  {
    if chain != [] {
      var block := Last(blocks);
      FirstMatchIsLexicalScoping(Front(blocks), Front(chain), key);
      FirstMatchOfConcat(Flatten(Front(blocks)), Copied(block), key);
      BlockAnswersForSpan(block, Last(chain), key);
      ScopedValueOfLast(chain, key);
    }
  }

  predicate Carries(span: Span, attr: Attr) {
    attr in AttrsOf(span) || (attr.key in TrackedOf(span) && attr.value == Str(TrackedOf(span)[attr.key]))
  }

  predicate IsCarried(chain: seq<Span>, attr: Attr) {
    exists span :: span in chain && Carries(span, attr)
  }

  lemma CarriedByLast(chain: seq<Span>, attr: Attr)
    requires chain != []
    ensures IsCarried(chain, attr) <==> IsCarried(Front(chain), attr) || Carries(Last(chain), attr)
  {
    assert chain == Front(chain) + [Last(chain)];
  }

  // No enclosing span's tracked field or attribute is missing from the record, and
  // nothing else is there.
  lemma {:induction false} WalkIsComplete(blocks: seq<Block>, chain: seq<Span>, attr: Attr)
    requires IsWalk(blocks, chain)
    ensures attr in Flatten(blocks) <==> IsCarried(chain, attr)
  {
    if chain != [] {
      WalkIsComplete(Front(blocks), Front(chain), attr);
      assert IsBlock(Last(blocks), Last(chain));
      CarriedByLast(chain, attr);
    }
  }

  // ---------------------------------------------------------------------------
  // Spans created and written to over a run
  // ---------------------------------------------------------------------------

  datatype Field = StrField(name: string, text: string) | DebugField(name: string, text: string)

  // A string is taken as it is, other text without the quotes around it.
  ghost predicate IsTextOf(field: Field, text: string) {
    match field
    case StrField(_, given) => text == given
    case DebugField(_, given) =>
      && (text != [] ==> text[0] != '"' && Last(text) != '"')
      && exists j: nat :: Text.IsTrimmed(given, text, '"', j)
  }

  // The last field called `key` holds `text`.
  ghost predicate IsGiven(fields: seq<Field>, key: Key, text: string) {
    exists i :: 0 <= i < |fields| && fields[i].name == key && IsTextOf(fields[i], text)
                && forall j :: i < j < |fields| ==> fields[j].name != key
  }

  predicate Mentions(fields: seq<Field>, key: Key) {
    exists i :: 0 <= i < |fields| && fields[i].name == key
  }

  function TextOf(field: Field): (text: string)
    ensures IsTextOf(field, text)
  {
    if field.StrField? then field.text else Text.TrimMatches(field.text, '"')
  }

  // The last value given to `key`, if it was given any.
  function LastText(fields: seq<Field>, key: Key): (text: Option<string>)
    ensures text.Some? ==> IsGiven(fields, key, text.value)
    ensures text.Some? <==> Mentions(fields, key)
  {
    if fields == [] then None
    else if Last(fields).name == key then Some(TextOf(Last(fields)))
    else LastText(Front(fields), key)
  }

  // The configured keys among `fields`, each with its last value.
  function Captured(keys: seq<Key>, fields: seq<Field>): map<Key, string> {
    if fields == [] then map[]
    else
      var earlier := Captured(keys, Front(fields));
      if Last(fields).name in keys then earlier[Last(fields).name := TextOf(Last(fields))] else earlier
  }

  lemma {:induction false} CapturedIsLastText(keys: seq<Key>, fields: seq<Field>, key: Key)
    ensures key in Captured(keys, fields) <==> key in keys && LastText(fields, key).Some?
    ensures key in Captured(keys, fields) ==> Some(Captured(keys, fields)[key]) == LastText(fields, key)
  {
    if fields != [] {
      CapturedIsLastText(keys, Front(fields), key);
    }
  }

  ghost predicate IsRegistry(spans: seq<Span>) {
    forall i :: 0 <= i < |spans| && spans[i].parent.Some? ==> spans[i].parent.value < i
  }

  // A span and all that enclose it, nearest first.
  function Scope(spans: seq<Span>, from: Option<nat>): seq<Span>
    requires IsRegistry(spans) && (from.Some? ==> from.value < |spans|)
    decreases if from.Some? then from.value + 1 else 0
  {
    if from.None? then [] else [spans[from.value]] + Scope(spans, spans[from.value].parent)
  }

  // The spans of a scope, by their positions: the first is where it starts, each is the
  // parent of the one before it, and the last has none.
  ghost predicate IsPathOut(spans: seq<Span>, from: nat, ids: seq<nat>) {
    && ids != [] && ids[0] == from
    && (forall i :: 0 <= i < |ids| ==> ids[i] < |spans|)
    && (forall i :: 0 <= i < |ids| - 1 ==> spans[ids[i]].parent == Some(ids[i + 1]))
    && spans[Last(ids)].parent == None
  }

  // A scope holds the span and every one that encloses it, each once.
  lemma {:induction false} ScopeIsThePathOut(spans: seq<Span>, from: nat) returns (ids: seq<nat>)
    requires IsRegistry(spans) && from < |spans|
    ensures IsPathOut(spans, from, ids)
    ensures forall i, j :: 0 <= i < j < |ids| ==> ids[i] > ids[j]
    ensures |Scope(spans, Some(from))| == |ids|
    ensures forall i :: 0 <= i < |ids| ==> Scope(spans, Some(from))[i] == spans[ids[i]]
    decreases from
  {
    if spans[from].parent.None? {
      ids := [from];
    } else {
      var rest := ScopeIsThePathOut(spans, spans[from].parent.value);
      ids := [from] + rest;
      assert Last(ids) == Last(rest);
    }
  }

  datatype Op =
    | Create(parent: Option<nat>, fields: seq<Field>)
    | WriteAttr(write: Write)

  function MakeSpan(keys: seq<Key>, parent: Option<nat>, fields: seq<Field>): Span {
    var tracked := Captured(keys, fields);
    Span(parent, if tracked == map[] then None else Some(tracked), None)
  }

  // No span is made under a parent that is not there.
  function OpStep(keys: seq<Key>, spans: seq<Span>, op: Op): seq<Span> {
    match op
    case Create(parent, fields) =>
      if parent.Some? && parent.value >= |spans| then spans else spans + [MakeSpan(keys, parent, fields)]
    case WriteAttr(write) => WriteStep(spans, write)
  }

  function Run(keys: seq<Key>, ops: seq<Op>): (spans: seq<Span>)
    ensures IsRegistry(spans)
  {
    if ops == [] then [] else OpStep(keys, Run(keys, Front(ops)), Last(ops))
  }

  // The operation that made span `id`, and the attributes written to it since.
  datatype Story = Story(parent: Option<nat>, fields: seq<Field>, written: seq<Attr>)

  function Stories(ops: seq<Op>): seq<Story> {
    if ops == [] then []
    else
      var earlier := Stories(Front(ops));
      match Last(ops)
      case Create(parent, fields) =>
        if parent.Some? && parent.value >= |earlier| then earlier else earlier + [Story(parent, fields, [])]
      case WriteAttr(w) =>
        if w.span >= |earlier| then earlier
        else earlier[w.span := earlier[w.span].(written := earlier[w.span].written + [w.attr])]
  }

  ghost predicate HoldsStory(keys: seq<Key>, story: Story, span: Span) {
    && span.parent == story.parent
    && TrackedOf(span) == Captured(keys, story.fields)
    && IsLastWriteMap(AttrsOf(span), story.written)
  }

  // The same, with the tracked fields told by the positions they were given at.
  ghost predicate TellsSpan(keys: seq<Key>, story: Story, span: Span) {
    && HoldsStory(keys, story, span)
    && (forall k :: k in TrackedOf(span) <==> k in keys && Mentions(story.fields, k))
    && (forall k :: k in TrackedOf(span) ==> IsGiven(story.fields, k, TrackedOf(span)[k]))
  }

  lemma {:induction false} RunHoldsStories(keys: seq<Key>, ops: seq<Op>)
    ensures |Run(keys, ops)| == |Stories(ops)|
    ensures forall id :: 0 <= id < |Stories(ops)| ==> HoldsStory(keys, Stories(ops)[id], Run(keys, ops)[id])
  {
    if ops != [] {
      RunHoldsStories(keys, Front(ops));
      if Last(ops).WriteAttr? && Last(ops).write.span < |Stories(Front(ops))| {
        var w := Last(ops).write;
        PutKeepsLastWriteMap(AttrsOf(Run(keys, Front(ops))[w.span]), Stories(Front(ops))[w.span].written, w.attr);
      }
    }
  }

  lemma HeldStoryIsTold(keys: seq<Key>, story: Story, span: Span)
    requires HoldsStory(keys, story, span)
    ensures TellsSpan(keys, story, span)
  {
    forall k
      ensures k in TrackedOf(span) <==> k in keys && Mentions(story.fields, k)
      ensures k in TrackedOf(span) ==> IsGiven(story.fields, k, TrackedOf(span)[k])
    {
      CapturedIsLastText(keys, story.fields, k);
    }
  }

  // Over every run of spans created and written to, each span holds the configured
  // fields given at its creation and the last value written to each key since.
  lemma RunTellsStories(keys: seq<Key>, ops: seq<Op>)
    ensures |Run(keys, ops)| == |Stories(ops)|
    ensures forall id :: 0 <= id < |Stories(ops)| ==> TellsSpan(keys, Stories(ops)[id], Run(keys, ops)[id])
  {
    RunHoldsStories(keys, ops);
    forall id | 0 <= id < |Stories(ops)|
      ensures TellsSpan(keys, Stories(ops)[id], Run(keys, ops)[id])
    {
      HeldStoryIsTold(keys, Stories(ops)[id], Run(keys, ops)[id]);
    }
  }

  // What a story says of `key`: the last value given at creation where the key is
  // configured, else the last one written.
  function Told(keys: seq<Key>, story: Story, key: Key): Option<Value> {
    var text := LastText(story.fields, key);
    if key in keys && text.Some? then Some(Str(text.value)) else LastWritten(story.written, key)
  }

  // The nearest story that says something of `key`, from span `from` outwards.
  function ToldInScope(keys: seq<Key>, stories: seq<Story>, from: Option<nat>, key: Key): Option<Value>
    decreases if from.Some? then from.value + 1 else 0
  {
    if from.None? || from.value >= |stories| then None
    else
      var story := stories[from.value];
      var told := Told(keys, story, key);
      if told.Some? then told
      else if story.parent.Some? && story.parent.value >= from.value then None
      else ToldInScope(keys, stories, story.parent, key)
  }

  lemma {:induction false} KeysInOrderAreWritten(written: seq<Attr>, key: Key)
    ensures key in KeysInOrder(written) <==> LastWritten(written, key).Some?
  {
    if written != [] {
      KeysInOrderAreWritten(Front(written), key);
    }
  }

  lemma FirstMatchIsLastWritten(attrs: seq<Attr>, written: seq<Attr>, key: Key)
    requires IsLastWriteMap(attrs, written)
    ensures FirstMatch(attrs, key) == LastWritten(written, key)
  {
    FirstMatchIsMember(attrs, key);
    KeysInOrderAreWritten(written, key);
  }

  lemma StoryTellsValue(keys: seq<Key>, story: Story, span: Span, key: Key)
    requires HoldsStory(keys, story, span)
    ensures ValueIn(span, key) == Told(keys, story, key)
    ensures Holds(span, key) <==> Told(keys, story, key).Some?
  {
    CapturedIsLastText(keys, story.fields, key);
    FirstMatchIsLastWritten(AttrsOf(span), story.written, key);
  }

  lemma NearestSplitsFirst(span: Span, rest: seq<Span>, key: Key)
    ensures Nearest([span] + rest, key) == if Holds(span, key) then 0 else 1 + Nearest(rest, key)
  {
    var chain := [span] + rest;
    var n, m := Nearest(chain, key), Nearest(rest, key);
    assert chain[0] == span;
    assert m < |rest| ==> chain[m + 1] == rest[m];
    assert 0 < n < |chain| ==> chain[n] == rest[n - 1];
    assert forall j :: 0 <= j < |rest| ==> chain[j + 1] == rest[j];
  }

  lemma ScopedValueOfFirst(span: Span, rest: seq<Span>, key: Key)
    ensures ScopedValue([span] + rest, key) == if Holds(span, key) then ValueIn(span, key) else ScopedValue(rest, key)
  {
    NearestSplitsFirst(span, rest, key);
  }

  lemma {:induction false} ScopeTellsStories(keys: seq<Key>, ops: seq<Op>, from: Option<nat>, key: Key)
    requires from.Some? ==> from.value < |Run(keys, ops)|
    ensures ScopedValue(Scope(Run(keys, ops), from), key) == ToldInScope(keys, Stories(ops), from, key)
    decreases if from.Some? then from.value + 1 else 0
  {
    if from.Some? {
      var spans := Run(keys, ops);
      var span := spans[from.value];
      RunHoldsStories(keys, ops);
      StoryTellsValue(keys, Stories(ops)[from.value], span, key);
      ScopedValueOfFirst(span, Scope(spans, span.parent), key);
      ScopeTellsStories(keys, ops, span.parent, key);
    }
  }

  // Over every run of spans created and written to, in any order, a key looked up in
  // what the walk copies onto a record emitted in span `id` has the value told by the
  // nearest enclosing span: what its creation gave a configured key, else what was
  // last written to it; and none where no enclosing span was told any.
  lemma RecordTellsTheRun(keys: seq<Key>, ops: seq<Op>, id: nat, blocks: seq<Block>, key: Key)
    requires id < |Run(keys, ops)| && IsWalk(blocks, Scope(Run(keys, ops), Some(id)))
    ensures FirstMatch(Flatten(blocks), key) == ToldInScope(keys, Stories(ops), Some(id), key)
  {
    FirstMatchIsLexicalScoping(blocks, Scope(Run(keys, ops), Some(id)), key);
    ScopeTellsStories(keys, ops, Some(id), key);
  }

  // ---------------------------------------------------------------------------
  // The registry, updated in place
  // ---------------------------------------------------------------------------

  method Entries(tracked: map<Key, string>) returns (entries: seq<Attr>)
    ensures IsListing(entries, tracked)
  {
    entries := [];
    var left := tracked.Keys;
    while left != {}
      invariant left <= tracked.Keys
      invariant |entries| + |left| == |tracked|
      invariant forall a :: a in entries <==> a.key in tracked && a.key !in left && a.value == Str(tracked[a.key])
      decreases left
    {
      var k :| k in left;
      entries := entries + [Attr(k, Str(tracked[k]))];
      left := left - {k};
    }
  }

  method SpanEntries(span: Span) returns (entries: seq<Attr>)
    ensures exists block :: IsBlock(block, span) && entries == Copied(block)
  {
    var listing := [];
    if span.tracked.Some? {
      listing := Entries(span.tracked.value);
    }
    ghost var block := Block(listing, AttrsOf(span));
    entries := listing;
    if span.attrs.Some? {
      entries := entries + span.attrs.value;
    }
    assert IsBlock(block, span) && entries == Copied(block);
  }

  class Registry {
    // The keys the bridge tracks.
    const keys: seq<Key>
    var spans: seq<Span>

    // Tracked keys always lie in the configured list, and a span without any carries
    // no extension for them.
    ghost predicate Valid()
      reads this
    {
      && IsRegistry(spans)
      && forall i :: 0 <= i < |spans| && spans[i].tracked.Some? ==>
           spans[i].tracked.value != map[] && forall k :: k in spans[i].tracked.value ==> k in keys
    }

    constructor (keys: seq<Key>)
      ensures Valid() && this.keys == keys && spans == []
    {
      this.keys := keys;
      spans := [];
    }

    method Collect(fields: seq<Field>) returns (tracked: map<Key, string>)
      ensures tracked == Captured(keys, fields)
      ensures forall k :: k in tracked <==> k in keys && Mentions(fields, k)
      ensures forall k :: k in tracked ==> IsGiven(fields, k, tracked[k])
    {
      tracked := map[];
      for i := 0 to |fields|
        invariant tracked == Captured(keys, fields[..i])
      {
        assert Front(fields[..i + 1]) == fields[..i];
        if fields[i].name in keys {
          tracked := tracked[fields[i].name := TextOf(fields[i])];
        }
      }
      assert fields[..|fields|] == fields;
      forall k
        ensures k in tracked <==> k in keys && Mentions(fields, k)
        ensures k in tracked ==> IsGiven(fields, k, tracked[k])
      {
        CapturedIsLastText(keys, fields, k);
      }
    }

    method NewSpan(parent: Option<nat>, fields: seq<Field>) returns (id: nat)
      requires Valid()
      requires parent.Some? ==> parent.value < |spans|
      modifies this
      ensures Valid() && id == |old(spans)| && |spans| == id + 1 && spans[..id] == old(spans)
      ensures spans == OpStep(keys, old(spans), Create(parent, fields))
      ensures spans[id].parent == parent && spans[id].attrs == None
      ensures forall k :: k in TrackedOf(spans[id]) <==> k in keys && Mentions(fields, k)
      ensures forall k :: k in TrackedOf(spans[id]) ==> IsGiven(fields, k, TrackedOf(spans[id])[k])
    {
      var tracked := Collect(fields);
      id := |spans|;
      var span := Span(parent, None, None);
      if tracked != map[] {
        span := span.(tracked := Some(tracked));
      }
      spans := spans + [span];
    }

    method RecordSpanLogAttrOn(id: nat, key: Key, value: Value)
      requires Valid()
      modifies this
      ensures Valid()
      ensures spans == OpStep(keys, old(spans), WriteAttr(Write(id, Attr(key, value))))
    {
      if id < |spans| {
        if spans[id].attrs.None? {
          spans := spans[id := spans[id].(attrs := Some([]))];
        }
        var attrs := spans[id].attrs.value;
        var i := 0;
        while i < |attrs| && attrs[i].key != key
          invariant i <= |attrs|
          invariant forall j :: 0 <= j < i ==> attrs[j].key != key
        {
          i := i + 1;
        }
        assert i == IndexOf(attrs, key);
        if i < |attrs| {
          attrs := attrs[i := Attr(key, value)];
        } else {
          attrs := attrs + [Attr(key, value)];
        }
        spans := spans[id := spans[id].(attrs := Some(attrs))];
      }
    }

    // Appends what every enclosing span carries to a record, nearest span first.
    method InjectSpanContext(id: nat, record: seq<Attr>) returns (result: seq<Attr>)
      requires Valid() && id < |spans|
      ensures exists blocks :: IsWalk(blocks, Scope(spans, Some(id))) && result == record + Flatten(blocks)
    {
      result := record;
      ghost var blocks: seq<Block> := [];
      ghost var chain: seq<Span> := [];
      var ancestor: Option<nat> := Some(id);
      while ancestor.Some?
        invariant ancestor.Some? ==> ancestor.value < |spans|
        invariant result == record + Flatten(blocks)
        invariant IsWalk(blocks, chain)
        invariant Scope(spans, Some(id)) == chain + Scope(spans, ancestor)
        decreases if ancestor.Some? then ancestor.value + 1 else 0
      {
        var entries := SpanEntries(spans[ancestor.value]);
        ghost var block :| IsBlock(block, spans[ancestor.value]) && entries == Copied(block);
        WalkOneMore(record, blocks, chain, block, spans[ancestor.value]);
        ScopeOneMore(spans, chain, ancestor.value);
        result := result + entries;
        blocks := blocks + [block];
        chain := chain + [spans[ancestor.value]];
        ancestor := spans[ancestor.value].parent;
      }
    }
  }

  lemma WalkOneMore(record: seq<Attr>, blocks: seq<Block>, chain: seq<Span>, block: Block, span: Span)
    requires IsWalk(blocks, chain) && IsBlock(block, span)
    ensures IsWalk(blocks + [block], chain + [span])
    ensures record + Flatten(blocks + [block]) == record + Flatten(blocks) + Copied(block)
  {
    assert Front(blocks + [block]) == blocks;
  }

  lemma ScopeOneMore(spans: seq<Span>, chain: seq<Span>, i: nat)
    requires IsRegistry(spans) && i < |spans|
    ensures chain + Scope(spans, Some(i)) == chain + [spans[i]] + Scope(spans, spans[i].parent)
  {
  }
}
