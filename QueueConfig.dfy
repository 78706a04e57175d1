/**
 * The configuration the launcher reads once at startup: the list of queue
 * names from `QUEUES`, the login password from `PASSWORD`, and the guard
 * that stops startup when `QUEUES` is missing or empty.
 */
module QueueConfig {
  import opened Wrappers
  import opened Text

  /** The two environment variables the launcher reads; `None` is unset. */
  datatype Env = Env(queues: Option<string>, password: Option<string>)

  /** Configuration built at startup and never changed afterwards. */
  datatype Config = Config(queueNames: seq<string>, password: string)

  /** Why startup stops. */
  datatype StartupError = MissingQueues

  /** Password used when `PASSWORD` is unset or empty. */
  const DefaultPassword: string := "123456"

  /** A well-formed queue name: non-empty, no space, not padded with whitespace. */
  predicate IsQueueName(name: string) {
    name != [] && ' ' !in name
    && !IsWhitespace(name[0]) && !IsWhitespace(name[|name| - 1])
  }

  /** `pieces.map(t => t.trim())`: entry `k` is piece `k`, trimmed. */
  function TrimEach(pieces: seq<string>): (trimmed: seq<string>)
    ensures |trimmed| == |pieces|
    ensures forall k :: 0 <= k < |pieces| ==> trimmed[k] == Trim(pieces[k])
  {
    if pieces == [] then [] else [Trim(pieces[0])] + TrimEach(pieces[1..])
  }

  /** Trimming each piece of a concatenation trims each part. */
  lemma {:induction false} TrimEachAppend(a: seq<string>, b: seq<string>)
    ensures TrimEach(a + b) == TrimEach(a) + TrimEach(b)
  {
    if a == [] {
      assert a + b == b;
    } else {
      assert (a + b)[0] == a[0];
      assert (a + b)[1..] == a[1..] + b;
      TrimEachAppend(a[1..], b);
    }
  }

  /** `tokens.filter(t => t !== '')`: keeps the non-empty tokens, in order. */
  function DropEmpty(tokens: seq<string>): (kept: seq<string>)
    ensures |kept| == |tokens| - EmptyCount(tokens)
    ensures forall t :: t in kept <==> t in tokens && t != ""
  {
    if tokens == [] then []
    else (if tokens[0] == "" then [] else [tokens[0]]) + DropEmpty(tokens[1..])
  }

  /** Number of empty strings among `tokens`. */
  function EmptyCount(tokens: seq<string>): nat {
    if tokens == [] then 0 else (if tokens[0] == "" then 1 else 0) + EmptyCount(tokens[1..])
  }

  /** The filter keeps a single token exactly when it is not empty. */
  lemma DropEmptySingle(token: string)
    ensures DropEmpty([token]) == if token == "" then [] else [token]
  {
    assert [token][1..] == [];
  }

  /** Filtering a concatenation filters each part. */
  lemma {:induction false} DropEmptyAppend(a: seq<string>, b: seq<string>)
    ensures DropEmpty(a + b) == DropEmpty(a) + DropEmpty(b)
  {
    if a != [] {
      assert (a + b)[0] == a[0];
      assert (a + b)[1..] == a[1..] + b;
      DropEmptyAppend(a[1..], b);
    } else {
      assert a + b == b;
    }
  }

  /** Number of pieces that hold something other than whitespace. */
  function NonBlankCount(pieces: seq<string>): nat {
    if pieces == [] then 0
    else (if AllWhitespace(pieces[0]) then 0 else 1) + NonBlankCount(pieces[1..])
  }

  /**
   * `QUEUES.split(' ').map(t => t.trim()).filter(t => t !== '')`: every
   * name is well formed, and there is exactly one name per space-separated
   * piece that is not blank.
   */
  function ParseQueueNames(queues: string): (names: seq<string>)
    ensures AllQueueNames(names)
    ensures |names| == NonBlankCount(SplitOnSpace(queues))
  {
    var pieces := SplitOnSpace(queues);
    NamesWellFormed(pieces);
    NamesCount(pieces);
    DropEmpty(TrimEach(pieces))
  }

  /** Trimming then filtering handles the first piece, then the rest. */
  lemma NamesCons(pieces: seq<string>)
    requires pieces != []
    ensures var t := Trim(pieces[0]);
      DropEmpty(TrimEach(pieces)) == (if t == "" then [] else [t]) + DropEmpty(TrimEach(pieces[1..]))
  {
    var tr := TrimEach(pieces);
    assert tr[0] == Trim(pieces[0]);
    assert tr[1..] == TrimEach(pieces[1..]);
  }

  /** Every name kept from space-free pieces is well formed. */
  lemma {:induction false} NamesWellFormed(pieces: seq<string>)
    requires forall k :: 0 <= k < |pieces| ==> ' ' !in pieces[k]
    ensures AllQueueNames(DropEmpty(TrimEach(pieces)))
  {
    if pieces != [] {
      var t := Trim(pieces[0]);
      assert AllQueueNames(DropEmpty(TrimEach(pieces[1..]))) by {
        assert forall k :: 0 <= k < |pieces[1..]| ==> ' ' !in pieces[1..][k] by {
          forall k | 0 <= k < |pieces[1..]| ensures ' ' !in pieces[1..][k] {
            assert pieces[1..][k] == pieces[k + 1];
          }
        }
        NamesWellFormed(pieces[1..]);
      }
      assert t == "" || IsQueueName(t) by {
        if t != "" {
          TrimmedPieceIsName(pieces[0]);
        }
      }
      NamesCons(pieces);
      QueueNamesCons(t, DropEmpty(TrimEach(pieces[1..])));
    }
  }

  /** Every entry of `names` is a well-formed queue name. */
  predicate AllQueueNames(names: seq<string>) {
    forall k :: 0 <= k < |names| ==> IsQueueName(names[k])
  }

  /** Putting a well-formed name, or nothing, before well-formed names keeps them well formed. */
  lemma QueueNamesCons(t: string, rest: seq<string>)
    requires t == "" || IsQueueName(t)
    requires AllQueueNames(rest)
    ensures AllQueueNames((if t == "" then [] else [t]) + rest)
  {
    var all := (if t == "" then [] else [t]) + rest;
    forall k | 0 <= k < |all| ensures IsQueueName(all[k]) {
      if t != "" && k > 0 {
        assert all[k] == rest[k - 1];
      }
    }
  }

  /** One name is kept per piece that is not blank. */
  lemma {:induction false} NamesCount(pieces: seq<string>)
    ensures |DropEmpty(TrimEach(pieces))| == NonBlankCount(pieces)
  {
    if pieces != [] {
      NamesCount(pieces[1..]);
      NamesCons(pieces);
    }
  }

  /** A space-free piece that is not blank trims to a well-formed name. */
  lemma TrimmedPieceIsName(piece: string)
    requires ' ' !in piece && !AllWhitespace(piece)
    ensures IsQueueName(Trim(piece))
  {
    var t := Trim(piece);
    TrimIsSlice(piece);
    var i, j :| TrimmedSlice(piece, i, j) && t == piece[i..j];
    forall k | 0 <= k < |t| ensures t[k] != ' ' {
      assert t[k] == piece[i + k];
    }
  }

  /** Parsing `a + ' ' + b` gives the names of `a` followed by those of `b`. */
  lemma ParseAppend(a: string, b: string)
    ensures ParseQueueNames(a + " " + b) == ParseQueueNames(a) + ParseQueueNames(b)
  {
    SplitAppend(a, b);
    var pa, pb := SplitOnSpace(a), SplitOnSpace(b);
    TrimEachAppend(pa, pb);
    DropEmptyAppend(TrimEach(pa), TrimEach(pb));
  }

  /** A piece without a space gives its trimmed self, or nothing if blank. */
  lemma ParseOnePiece(piece: string)
    requires ' ' !in piece
    ensures ParseQueueNames(piece) == if AllWhitespace(piece) then [] else [Trim(piece)]
  {
    SplitNoSpace(piece);
    assert TrimEach([piece]) == [Trim(piece)];
    DropEmptySingle(Trim(piece));
  }

  /** Two well-formed names separated by a space parse to those two names, in order. */
  lemma ParseTwoNames(a: string, b: string)
    requires IsQueueName(a) && IsQueueName(b)
    ensures ParseQueueNames(a + " " + b) == [a, b]
  {
    ParseAppend(a, b);
    ParseName(a);
    ParseName(b);
  }

  /** Repeated names are kept: listing a name twice yields it twice. */
  lemma ParseKeepsDuplicates(name: string)
    requires IsQueueName(name)
    ensures ParseQueueNames(name + " " + name) == [name, name]
  {
    ParseTwoNames(name, name);
  }

  /** Names joined with single spaces parse back to the same list, in order. */
  lemma {:induction false} ParseJoin(names: seq<string>)
    requires |names| >= 1
    requires forall k :: 0 <= k < |names| ==> IsQueueName(names[k])
    ensures ParseQueueNames(JoinWithSpace(names)) == names
  {
    if |names| == 1 {
      ParseName(names[0]);
    } else {
      var rest := names[1..];
      var tail := JoinWithSpace(rest);
      assert JoinWithSpace(names) == names[0] + " " + tail;
      assert ParseQueueNames(names[0] + " " + tail) == [names[0]] + rest by {
        ParseJoin(rest);
        ParseName(names[0]);
        ParseAppend(names[0], tail);
      }
      assert names == [names[0]] + rest;
    }
  }

  /** A well-formed name parses to itself alone. */
  lemma ParseName(name: string)
    requires IsQueueName(name)
    ensures ParseQueueNames(name) == [name]
  {
    ParseOnePiece(name);
    TrimUnchanged(name);
    assert !IsWhitespace(name[0]);
  }

  /** Space-free pieces give no name exactly when each of them is blank. */
  lemma {:induction false} NamesNone(pieces: seq<string>)
    ensures DropEmpty(TrimEach(pieces)) == [] <==> forall k :: 0 <= k < |pieces| ==> AllWhitespace(pieces[k])
  {
    if pieces != [] {
      NamesNone(pieces[1..]);
      NamesCons(pieces);
      assert forall k :: 1 <= k < |pieces| ==> pieces[k] == pieces[1..][k - 1];
    }
  }

  /** The list is empty exactly when `QUEUES` is nothing but whitespace. */
  lemma ParseEmptyIffBlank(queues: string)
    ensures ParseQueueNames(queues) == [] <==> AllWhitespace(queues)
  {
    var pieces := SplitOnSpace(queues);
    JoinSplit(queues);
    AllWhitespaceJoin(pieces);
    NamesNone(pieces);
  }

  /** `PASSWORD || '123456'`: the configured password, never empty. */
  function EffectivePassword(password: Option<string>): (effective: string)
    ensures effective != ""
    ensures password.Some? && password.value != "" ==> effective == password.value
    ensures password == None || password == Some("") ==> effective == DefaultPassword
  {
    if password.Some? && password.value != "" then password.value else DefaultPassword
  }

  /**
   * The startup guard followed by the two configuration reads: startup
   * stops exactly when `QUEUES` is unset or empty; otherwise every name is
   * well formed and the password is non-empty.
   */
  function LoadConfig(env: Env): (r: Result<Config, StartupError>)
    ensures r.Err? <==> env.queues == None || env.queues == Some("")
    ensures r.Ok? ==> r.value.queueNames == ParseQueueNames(env.queues.value)
    ensures r.Ok? ==> r.value.password == EffectivePassword(env.password)
    ensures r.Ok? ==> AllQueueNames(r.value.queueNames)
    ensures r.Ok? ==> r.value.password != ""
    ensures r.Ok? ==> (r.value.queueNames == [] <==> AllWhitespace(env.queues.value))
  {
    if env.queues == None || env.queues == Some("") then Err(MissingQueues)
    else
      ParseEmptyIffBlank(env.queues.value);
      Ok(Config(ParseQueueNames(env.queues.value), EffectivePassword(env.password)))
  }

  /** A whitespace-only `QUEUES` passes the guard and monitors no queue. */
  lemma BlankQueuesStartEmpty(queues: string, password: Option<string>)
    requires queues != "" && AllWhitespace(queues)
    ensures LoadConfig(Env(Some(queues), password)) == Ok(Config([], EffectivePassword(password)))
  {
    ParseEmptyIffBlank(queues);
  }
}
