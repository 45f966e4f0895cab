/** The binary cache beside a manifest: a fast path for reading it, deleted by a settings edit. */
module ManifestCache {
  import opened Text

  type Bytes = seq<int>

  /** What the YAML and bincode libraries do, for one path with fixed link targets. `T` is the
      parsed integration. */
  datatype Codec<!T(==)> = Codec(parse: string -> Option<T>, encode: T -> Option<Bytes>, decode: Bytes -> Option<T>)

  /** Decoding what was encoded gives the value back, or fails. */
  ghost predicate Faithful<T(!new)>(c: Codec<T>) {
    forall x: T, b: Bytes :: c.encode(x) == Some(b) ==> c.decode(b) == Some(x) || c.decode(b) == None
  }

  /** The manifest's text and the cache file, if there are any. */
  datatype Files = Files(source: Option<string>, bin: Option<Bytes>)

  /** A read that may use and may write the cache; an edit that rewrites the text and then deletes
      the cache; and a rewrite of the text by someone else. The flags say whether writing or
      deleting the cache file works. */
  datatype Action =
    | Read(binWritten: bool)
    | EditSetting(edit: string -> string, binRemoved: bool)
    | Rewrite(source: string)

  function Cached<T(==)>(c: Codec<T>, f: Files): Option<T> {
    if f.bin.Some? then c.decode(f.bin.value) else None
  }

  /** What a read without any cache returns. */
  function FreshParse<T(==)>(c: Codec<T>, f: Files): Option<T> {
    if f.source.Some? then c.parse(f.source.value) else None
  }

  /** What `parse_file` returns; an error is `None`. */
  function ParseFile<T(==)>(c: Codec<T>, f: Files): Option<T> {
    if Cached(c, f).Some? then Cached(c, f) else FreshParse(c, f)
  }

  function AfterRead<T(==)>(c: Codec<T>, f: Files, binWritten: bool): Files {
    var r := FreshParse(c, f);
    if Cached(c, f).Some? || r.None? || !binWritten then f
    else
      match c.encode(r.value)
      case None => f
      case Some(b) => f.(bin := Some(b))
  }

  /** The files after an action. */
  function Act<T(==)>(c: Codec<T>, f: Files, a: Action): Files {
    match a
    case Read(written) => AfterRead(c, f, written)
    case EditSetting(edit, removed) =>
      if f.source.None? then f
      else Files(Some(edit(f.source.value)), if removed then None else f.bin)
    case Rewrite(source) => Files(Some(source), f.bin)
  }

  function Run<T(==)>(c: Codec<T>, f: Files, actions: seq<Action>): Files
    decreases |actions|
  {
    if actions == [] then f
    else Act(c, Run(c, f, actions[..|actions| - 1]), actions[|actions| - 1])
  }

  /** A cache file that can be decoded holds the parse of the current text. */
  ghost predicate Coherent<T>(c: Codec<T>, f: Files) {
    Cached(c, f).Some? ==> Cached(c, f) == FreshParse(c, f)
  }

  predicate Invalidates(a: Action) {
    a.Read? || (a.EditSetting? && a.binRemoved)
  }

  lemma ActKeepsCoherence<T(!new)>(c: Codec<T>, f: Files, a: Action)
    requires Faithful(c) && Coherent(c, f) && Invalidates(a)
    ensures Coherent(c, Act(c, f, a))
  {
    if a.Read? {
      var r := FreshParse(c, f);
      if Cached(c, f).None? && r.Some? && a.binWritten {
        assert c.encode(r.value).Some? ==>
          c.decode(c.encode(r.value).value) == Some(r.value) || c.decode(c.encode(r.value).value) == None;
      }
    }
  }

  /** Over every run of reads and settings edits whose deletions work, every read returns what a
      fresh parse of the current text would return, whether or not cache writes work. */
  lemma {:induction false} ReadsAreFresh<T(!new)>(c: Codec<T>, f: Files, actions: seq<Action>)
    requires Faithful(c) && Coherent(c, f) && forall a :: a in actions ==> Invalidates(a)
    ensures Coherent(c, Run(c, f, actions))
    ensures ParseFile(c, Run(c, f, actions)) == FreshParse(c, Run(c, f, actions))
    decreases |actions|
  {
    if actions != [] {
      var front := actions[..|actions| - 1];
      ReadsAreFresh(c, f, front);
      ActKeepsCoherence(c, Run(c, f, front), actions[|actions| - 1]);
    }
  }

  /** The exact condition for one edit: in a coherent state the read behind it is fresh if and only
      if the deletion works, or there was nothing to read in the cache, or the edit does not change
      what the text parses to. */
  lemma EditReadIff<T>(c: Codec<T>, f: Files, edit: string -> string, removed: bool)
    requires Coherent(c, f) && f.source.Some?
    ensures var g := Act(c, f, EditSetting(edit, removed));
            ParseFile(c, g) == FreshParse(c, g)
            <==> removed || Cached(c, f) == None || c.parse(edit(f.source.value)) == c.parse(f.source.value)
  {
    var s := f.source.value;
    var g := Act(c, f, EditSetting(edit, removed));
    assert FreshParse(c, g) == c.parse(edit(s));
    assert Cached(c, f).Some? ==> Cached(c, f) == c.parse(s);
  }

  // ---- Runs in which deletions fail ----

  /** The text now, and the text from which a readable cache was filled. */
  datatype History = History(text: Option<string>, filled: Option<string>)

  /** The text can be parsed, and its parse survives being written and read. */
  predicate Cacheable<T(==)>(c: Codec<T>, text: string) {
    c.parse(text).Some? && c.encode(c.parse(text).value).Some?
    && c.decode(c.encode(c.parse(text).value).value).Some?
  }

  /** What an action does to the history; the contents of the cache file play no part. */
  function Remember<T(==)>(c: Codec<T>, h: History, a: Action): History {
    match a
    case Read(written) =>
      if written && h.filled.None? && h.text.Some? && Cacheable(c, h.text.value) then h.(filled := h.text) else h
    case EditSetting(edit, removed) =>
      if h.text.None? then h else History(Some(edit(h.text.value)), if removed then None else h.filled)
    case Rewrite(source) => h.(text := Some(source))
  }

  function HistoryOf<T(==)>(c: Codec<T>, h: History, actions: seq<Action>): History
    decreases |actions|
  {
    if actions == [] then h
    else Remember(c, HistoryOf(c, h, actions[..|actions| - 1]), actions[|actions| - 1])
  }

  ghost predicate Matches<T>(c: Codec<T>, f: Files, h: History) {
    && f.source == h.text
    && (h.filled.None? ==> Cached(c, f) == None)
    && (h.filled.Some? ==> c.parse(h.filled.value).Some? && Cached(c, f) == c.parse(h.filled.value))
  }

  /** The history of coherent files: what can be read in the cache comes from the text. */
  function HistoryAt<T(==)>(c: Codec<T>, f: Files): History {
    History(f.source, if Cached(c, f).Some? then f.source else None)
  }

  lemma ActMatches<T(!new)>(c: Codec<T>, f: Files, h: History, a: Action)
    requires Faithful(c) && Matches(c, f, h)
    ensures Matches(c, Act(c, f, a), Remember(c, h, a))
  {
    if a.Read? && h.text.Some? && c.parse(h.text.value).Some? {
      var x := c.parse(h.text.value).value;
      assert c.encode(x).Some? ==>
        c.decode(c.encode(x).value) == Some(x) || c.decode(c.encode(x).value) == None;
    }
  }

  lemma {:induction false} RunMatches<T(!new)>(c: Codec<T>, f: Files, h: History, actions: seq<Action>)
    requires Faithful(c) && Matches(c, f, h)
    ensures Matches(c, Run(c, f, actions), HistoryOf(c, h, actions))
    decreases |actions|
  {
    if actions != [] {
      var front := actions[..|actions| - 1];
      RunMatches(c, f, h, front);
      ActMatches(c, Run(c, f, front), HistoryOf(c, h, front), actions[|actions| - 1]);
    }
  }

  /** The exact condition over every run of reads, edits and rewrites from coherent files, with
      writes and deletions that may fail: the next read is fresh if and only if no readable cache
      is left, or the text parses to what the text parsed to from which the cache was filled. */
  lemma RunReadIff<T(!new)>(c: Codec<T>, f: Files, actions: seq<Action>)
    requires Faithful(c) && Coherent(c, f)
    ensures var h := HistoryOf(c, HistoryAt(c, f), actions);
            ParseFile(c, Run(c, f, actions)) == FreshParse(c, Run(c, f, actions))
            <==> h.filled.None? || (h.text.Some? && c.parse(h.text.value) == c.parse(h.filled.value))
  {
    RunMatches(c, f, HistoryAt(c, f), actions);
  }

  /** It does go wrong: after a read has filled the cache, an edit whose deletion fails is not seen
      when it changes the parse. */
  lemma StaleRead<T(!new)>(c: Codec<T>, source: string, edit: string -> string)
    requires c.parse(source).Some? && c.encode(c.parse(source).value).Some?
    requires c.decode(c.encode(c.parse(source).value).value) == c.parse(source)
    requires c.parse(edit(source)) != c.parse(source)
    ensures var f := Run(c, Files(Some(source), None), [Read(true), EditSetting(edit, false)]);
            ParseFile(c, f) == c.parse(source) != FreshParse(c, f)
  {
    var f := Files(Some(source), None);
    var read, stale := Read(true), EditSetting(edit, false);
    var none: seq<Action> := [];
    assert [read, stale][..1] == [read] && [read][..0] == none;
    assert Run(c, f, none) == f;
    assert Run(c, f, [read]) == Act(c, f, read);
    assert Run(c, f, [read, stale]) == Act(c, Act(c, f, read), stale);
  }

  // ---- The files as state ----

  class ManifestStore<T(==)> {
    const codec: Codec<T>
    var source: Option<string>
    var bin: Option<Bytes>

    constructor (codec: Codec<T>, source: Option<string>, bin: Option<Bytes>)
      ensures this.codec == codec && State() == Files(source, bin)
    {
      this.codec, this.source, this.bin := codec, source, bin;
    }

    function State(): Files
      reads this
    {
      Files(source, bin)
    }

    method ReadManifest(binWritten: bool) returns (r: Option<T>)
      modifies this
      ensures r == ParseFile(codec, old(State()))
      ensures State() == Act(codec, old(State()), Action.Read(binWritten))
    {
      if bin.Some? {
        var cached := codec.decode(bin.value);
        if cached.Some? {
          return cached;
        }
      }
      if source.None? {
        return None;
      }
      r := codec.parse(source.value);
      if r.None? {
        return;
      }
      var encoded := codec.encode(r.value);
      if encoded.Some? && binWritten {
        bin := encoded;
      }
    }

    method SaveSetting(edit: string -> string, binRemoved: bool) returns (ok: bool)
      modifies this
      ensures ok <==> old(source).Some?
      ensures State() == Act(codec, old(State()), EditSetting(edit, binRemoved))
    {
      if source.None? {
        return false;
      }
      source := Some(edit(source.value));
      if bin.Some? && binRemoved {
        bin := None;
      }
      ok := true;
    }
  }
}
