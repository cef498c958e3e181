/** The streaming redactor of the integration harness (tests/integration/test_mqtt_runtime.py, `_ProcessMonitor`). */
module Redactor {

  const TAIL_CHARS := 1000
  const MARKER: string := "<redacted>"

  // ---- redaction of a whole text ----

  /** The length of the longest secret that the text starts with, 0 if there is none. */
  function Longest(secrets: seq<string>, text: string): (n: nat)
    ensures n <= |text|
  {
    if secrets == [] then 0
    else
      var rest := Longest(secrets[1..], text);
      if secrets[0] <= text && |secrets[0]| > rest then |secrets[0]| else rest
  }

  datatype Piece = Plain(c: char) | Cut(secret: string)

  /** Left to right, the longest secret first, never overlapping. */
  function Pieces(secrets: seq<string>, text: string): seq<Piece>
    decreases |text|
  {
    if text == "" then []
    else
      var n := Longest(secrets, text);
      if n == 0 then [Plain(text[0])] + Pieces(secrets, text[1..])
      else [Cut(text[..n])] + Pieces(secrets, text[n..])
  }

  function Render(pieces: seq<Piece>): string {
    if pieces == [] then ""
    else (match pieces[0] case Plain(c) => [c] case Cut(_) => MARKER) + Render(pieces[1..])
  }

  /** The whole text, redacted at once. */
  function Redact(secrets: seq<string>, text: string): string {
    Render(Pieces(secrets, text))
  }

  lemma RedactStep(secrets: seq<string>, text: string)
    requires text != ""
    ensures var n := Longest(secrets, text);
            Redact(secrets, text) == if n == 0 then [text[0]] + Redact(secrets, text[1..])
                                     else MARKER + Redact(secrets, text[n..])
  {
  }

  lemma {:induction false} LongestIsLongest(secrets: seq<string>, text: string)
    ensures forall s | s in secrets && s <= text :: |s| <= Longest(secrets, text)
    ensures Longest(secrets, text) > 0 ==> text[..Longest(secrets, text)] in secrets
  {
    if secrets != [] {
      LongestIsLongest(secrets[1..], text);
      var first, rest := secrets[0], Longest(secrets[1..], text);
      assert forall s | s in secrets :: s == first || s in secrets[1..];
      if first <= text && |first| > rest {
        assert text[..|first|] == first;
      } else if rest > 0 {
        var found := text[..rest];
        assert found in secrets[1..] && found in secrets;
      }
    }
  }

  // ---- what redaction promises ----

  /** Which characters of the text were cut out. */
  function Mask(pieces: seq<Piece>): seq<bool> {
    if pieces == [] then []
    else (match pieces[0] case Plain(_) => [false] case Cut(s) => seq(|s|, _ => true)) + Mask(pieces[1..])
  }

  function Source(pieces: seq<Piece>): string {
    if pieces == [] then ""
    else (match pieces[0] case Plain(c) => [c] case Cut(s) => s) + Source(pieces[1..])
  }

  /** What the first piece of a text is. */
  function FirstPiece(secrets: seq<string>, text: string): (p: Piece)
    requires text != ""
    ensures |SourceOf(p)| > 0
  {
    var n := Longest(secrets, text);
    if n == 0 then Plain(text[0]) else Cut(text[..n])
  }

  function SourceOf(p: Piece): string {
    match p case Plain(c) => [c] case Cut(s) => s
  }

  lemma PiecesStep(secrets: seq<string>, text: string)
    requires text != ""
    ensures var p := FirstPiece(secrets, text);
            var n := |SourceOf(p)|;
            && 0 < n <= |text| && text == SourceOf(p) + text[n..]
            && Pieces(secrets, text) == [p] + Pieces(secrets, text[n..])
            && Source(Pieces(secrets, text)) == SourceOf(p) + Source(Pieces(secrets, text[n..]))
            && Mask(Pieces(secrets, text)) == seq(n, _ => p.Cut?) + Mask(Pieces(secrets, text[n..]))
  {
    var p := FirstPiece(secrets, text);
    var n := |SourceOf(p)|;
    var rest := Pieces(secrets, text[n..]);
    var all := Pieces(secrets, text);
    assert all == [p] + rest;
    assert all[0] == p && all[1..] == rest;
    if p.Plain? {
      assert [false] == seq(1, _ => false);
    }
  }

  /** The pieces are the text, and every cut piece is a secret. */
  lemma {:induction false} PiecesAreTheText(secrets: seq<string>, text: string)
    ensures Source(Pieces(secrets, text)) == text
    ensures |Mask(Pieces(secrets, text))| == |text|
    ensures forall p | p in Pieces(secrets, text) && p.Cut? :: p.secret in secrets
    decreases |text|
  {
    hide Pieces, Longest, Mask, Source;
    if text == "" {
      NoPieces(secrets, text);
    } else {
      var p := FirstPiece(secrets, text);
      PiecesStep(secrets, text);
      CutIsSecret(secrets, text);
      PiecesAreTheText(secrets, text[|SourceOf(p)|..]);
    }
  }

  lemma NoPieces(secrets: seq<string>, text: string)
    requires text == ""
    ensures Pieces(secrets, text) == [] && Source([]) == "" && Mask([]) == []
  {
  }

  lemma CutIsSecret(secrets: seq<string>, text: string)
    requires text != ""
    ensures FirstPiece(secrets, text).Cut? ==> FirstPiece(secrets, text).secret in secrets
  {
    LongestIsLongest(secrets, text);
  }

  ghost predicate CutBetween(mask: seq<bool>, from: int, to: int) {
    exists i :: from <= i < to && 0 <= i < |mask| && mask[i]
  }

  lemma CutShifts(head: seq<bool>, mask: seq<bool>, from: int, to: int)
    requires CutBetween(mask, from, to)
    ensures CutBetween(head + mask, from + |head|, to + |head|)
  {
    var i :| from <= i < to && 0 <= i < |mask| && mask[i];
    assert (head + mask)[i + |head|];
  }

  /** No occurrence of a secret survives: some character of it was cut out. */
  lemma {:induction false} NoSecretSurvives(secrets: seq<string>, text: string, secret: string, at: nat)
    requires secret in secrets && secret != "" && at <= |text| && secret <= text[at..]
    ensures CutBetween(Mask(Pieces(secrets, text)), at, at + |secret|)
    decreases |text|
  {
    hide Pieces, Longest, Mask;
    var p := FirstPiece(secrets, text);
    var n := |SourceOf(p)|;
    PiecesStep(secrets, text);
    var head, rest := seq(n, _ => p.Cut?), text[n..];
    if at >= n {
      assert text[at..] == rest[at - n..];
      NoSecretSurvives(secrets, rest, secret, at - n);
      CutShifts(head, Mask(Pieces(secrets, rest)), at - n, at - n + |secret|);
    } else {
      if p.Plain? {
        SecretIsSeen(secrets, text, secret);
      }
      assert Mask(Pieces(secrets, text))[at];
    }
  }

  lemma SecretIsSeen(secrets: seq<string>, text: string, secret: string)
    requires text != "" && FirstPiece(secrets, text).Plain? && secret in secrets && secret != ""
    ensures !(secret <= text[0..])
  {
    LongestIsLongest(secrets, text);
    assert text[0..] == text;
  }

  // ---- the compiled pattern ----

  /** The redactions as the constructor orders them: longer ones first, no empty one. */
  ghost predicate Ordered(secrets: seq<string>) {
    && "" !in secrets
    && forall i, j | 0 <= i < j < |secrets| :: |secrets[i]| >= |secrets[j]|
  }

  /** The alternation tried at the start of the text: the first secret that matches; 0 if none does. */
  function FirstMatch(secrets: seq<string>, text: string): nat {
    if secrets == [] then 0
    else if secrets[0] <= text then |secrets[0]|
    else FirstMatch(secrets[1..], text)
  }

  /** Because longer secrets come first, the first alternative that matches is the longest. */
  lemma {:induction false} FirstMatchIsLongest(secrets: seq<string>, text: string)
    requires Ordered(secrets)
    ensures FirstMatch(secrets, text) == Longest(secrets, text)
  {
    if secrets != [] {
      FirstMatchIsLongest(secrets[1..], text) by {
        assert forall i | 0 <= i < |secrets[1..]| :: secrets[1..][i] == secrets[i + 1];
      }
      LongestIsLongest(secrets[1..], text);
      var rest := Longest(secrets[1..], text);
      if rest > 0 {
        var i :| 0 <= i < |secrets[1..]| && secrets[1..][i] == text[..rest];
        assert secrets[i + 1] == text[..rest];
      }
    }
  }

  function Overlap(secrets: seq<string>): nat
    requires Ordered(secrets)
  {
    if secrets == [] then 0 else |secrets[0]| - 1
  }

  /** With a full overlap behind it, a position's match does not depend on what follows. */
  lemma {:induction false} MatchIsDecided(secrets: seq<string>, text: string, more: string)
    requires forall s | s in secrets :: |s| <= |text|
    ensures Longest(secrets, text + more) == Longest(secrets, text)
  {
    if secrets != [] {
      MatchIsDecided(secrets[1..], text, more);
      assert secrets[0] in secrets;
      assert secrets[0] <= text + more <==> secrets[0] <= text;
    }
  }

  lemma OverlapBounds(secrets: seq<string>, s: string)
    requires Ordered(secrets) && s in secrets
    ensures |s| <= Overlap(secrets) + 1
  {
    var i :| 0 <= i < |secrets| && secrets[i] == s;
    assert |secrets[0]| >= |secrets[i]|;
  }

  // ---- the tail ----

  function LastChars(s: string): string {
    if |s| <= TAIL_CHARS then s else s[|s| - TAIL_CHARS..]
  }

  /** The tail is the end of the text, a thousand characters or all there are. */
  lemma LastCharsAreTheEnd(s: string)
    ensures |LastChars(s)| == if |s| < 1000 then |s| else 1000
    ensures exists lead :: s == lead + LastChars(s)
  {
    var n := |s| - |LastChars(s)|;
    assert s == s[..n] + LastChars(s);
  }

  lemma LastCharsOfAppend(a: string, b: string)
    ensures LastChars(LastChars(a) + b) == LastChars(a + b)
  {
    if |a| > TAIL_CHARS {
      assert a == a[..|a| - TAIL_CHARS] + LastChars(a);
      assert a + b == a[..|a| - TAIL_CHARS] + (LastChars(a) + b);
    }
  }

  /** Emitting a stretch without a match. */
  lemma {:induction false} PlainStretch(secrets: seq<string>, text: string, n: nat)
    requires n <= |text|
    requires forall i | 0 <= i < n :: Longest(secrets, text[i..]) == 0
    ensures Redact(secrets, text) == text[..n] + Redact(secrets, text[n..])
  {
    hide Redact, Longest;
    assert text[0..] == text;
    if n > 0 {
      var rest := text[1..];
      RedactStep(secrets, text);
      forall i | 0 <= i < n - 1 ensures Longest(secrets, rest[i..]) == 0 {
        assert rest[i..] == text[i + 1..];
      }
      PlainStretch(secrets, rest, n - 1);
      assert rest[n - 1..] == text[n..];
      assert [text[0]] + rest[..n - 1] == text[..n];
    }
  }

  /** With nothing to redact, redaction is the identity. */
  lemma NothingToRedact(text: string)
    ensures Redact([], text) == text
  {
    PlainStretch([], text, |text|);
    assert text[..|text|] == text && text[|text|..] == "";
  }

  /** The continuations that may follow a chunk: any text, or nothing after the last one. */
  predicate MayFollow(final: bool, more: string) {
    final ==> more == ""
  }

  /** What has been put out for the first `cursor` characters is right for every continuation. */
  ghost predicate Settled(secrets: seq<string>, combined: string, out: string, cursor: nat, final: bool)
    requires cursor <= |combined|
  {
    forall more | MayFollow(final, more) ::
      Redact(secrets, combined + more) == out + Redact(secrets, combined[cursor..] + more)
  }

  /** The match at a position is the same for every continuation. */
  ghost predicate Decided(secrets: seq<string>, combined: string, at: nat, final: bool)
    requires at <= |combined|
  {
    forall more | MayFollow(final, more) :: Longest(secrets, combined[at..] + more) == Longest(secrets, combined[at..])
  }

  lemma NothingSettled(secrets: seq<string>, combined: string, final: bool)
    ensures Settled(secrets, combined, "", 0, final)
  {
    assert combined[0..] == combined;
  }

  /** Settling a stretch without a match. */
  lemma SettleStretch(secrets: seq<string>, combined: string, out: string, cursor: nat, stop: nat, final: bool)
    requires cursor <= stop <= |combined| && Settled(secrets, combined, out, cursor, final)
    requires forall i | cursor <= i < stop ::
             Decided(secrets, combined, i, final) && Longest(secrets, combined[i..]) == 0
    ensures Settled(secrets, combined, out + combined[cursor..stop], stop, final)
  {
    hide Redact, Longest;
    forall more | MayFollow(final, more)
      ensures Redact(secrets, combined + more)
              == (out + combined[cursor..stop]) + Redact(secrets, combined[stop..] + more)
    {
      var text, n := combined[cursor..] + more, stop - cursor;
      forall i | 0 <= i < n ensures Longest(secrets, text[i..]) == 0 {
        assert text[i..] == combined[cursor + i..] + more;
        assert Decided(secrets, combined, cursor + i, final);
      }
      PlainStretch(secrets, text, n);
      assert text[..n] == combined[cursor..stop] && text[n..] == combined[stop..] + more;
      assert out + (combined[cursor..stop] + Redact(secrets, text[n..]))
             == (out + combined[cursor..stop]) + Redact(secrets, text[n..]);
    }
  }

  /** Settling one match. */
  lemma SettleMatch(secrets: seq<string>, combined: string, out: string, start: nat, length: nat, final: bool)
    requires length > 0 && start + length <= |combined| && Settled(secrets, combined, out, start, final)
    requires Decided(secrets, combined, start, final) && Longest(secrets, combined[start..]) == length
    ensures Settled(secrets, combined, out + MARKER, start + length, final)
  {
    hide Redact, Longest, MARKER;
    forall more | MayFollow(final, more)
      ensures Redact(secrets, combined + more) == (out + MARKER) + Redact(secrets, combined[start + length..] + more)
    {
      var text := combined[start..] + more;
      RedactStep(secrets, text);
      assert text[length..] == combined[start + length..] + more;
      assert out + (MARKER + Redact(secrets, text[length..])) == (out + MARKER) + Redact(secrets, text[length..]);
    }
  }

  /** Positions with a full overlap behind them are decided; at the end of the stream, all are. */
  lemma SafePositionsAreDecided(secrets: seq<string>, combined: string, safeEnd: nat, final: bool)
    requires Ordered(secrets) && safeEnd <= |combined|
    requires !final && safeEnd > 0 ==> safeEnd + Overlap(secrets) <= |combined|
    ensures forall i | 0 <= i < safeEnd :: Decided(secrets, combined, i, final)
  {
    forall i, more | 0 <= i < safeEnd && MayFollow(final, more)
      ensures Longest(secrets, combined[i..] + more) == Longest(secrets, combined[i..])
    {
      if final {
        assert combined[i..] + more == combined[i..];
      } else {
        forall s | s in secrets ensures |s| <= |combined[i..]| {
          OverlapBounds(secrets, s);
        }
        MatchIsDecided(secrets, combined[i..], more);
      }
    }
  }

  /** For every continuation, redacting the stream is what was emitted plus redacting what is pending. */
  ghost predicate Tracks(secrets: seq<string>, stream: string, emitted: string, pending: string, final: bool) {
    forall more | MayFollow(final, more) :: Redact(secrets, stream + more) == emitted + Redact(secrets, pending + more)
  }

  lemma ChunkArrives(secrets: seq<string>, stream: string, emitted: string, pending: string, chunk: string)
    requires Tracks(secrets, stream, emitted, pending, false)
    ensures Tracks(secrets, stream + chunk, emitted, pending + chunk, false)
  {
    hide Redact;
    forall more
      ensures Redact(secrets, (stream + chunk) + more) == emitted + Redact(secrets, (pending + chunk) + more)
    {
      assert (stream + chunk) + more == stream + (chunk + more);
      assert (pending + chunk) + more == pending + (chunk + more);
      assert MayFollow(false, chunk + more);
    }
  }

  lemma ChunkSettles(secrets: seq<string>, stream: string, emitted: string, combined: string, out: string, cursor: nat,
                     final: bool)
    requires Tracks(secrets, stream, emitted, combined, false)
    requires cursor <= |combined| && Settled(secrets, combined, out, cursor, final)
    ensures Tracks(secrets, stream, emitted + out, combined[cursor..], final)
  {
    hide Redact;
    forall more | MayFollow(final, more)
      ensures Redact(secrets, stream + more) == (emitted + out) + Redact(secrets, combined[cursor..] + more)
    {
      assert MayFollow(false, more);
      assert Redact(secrets, combined + more) == out + Redact(secrets, combined[cursor..] + more);
      assert emitted + (out + Redact(secrets, combined[cursor..] + more))
             == (emitted + out) + Redact(secrets, combined[cursor..] + more);
    }
  }

  lemma NothingPending(secrets: seq<string>, stream: string, emitted: string, final: bool)
    requires Tracks(secrets, stream, emitted, "", final)
    ensures emitted == Redact(secrets, stream)
  {
    assert MayFollow(final, "") && stream + "" == stream;
    assert Redact(secrets, "" + "") == "";
    assert emitted + "" == emitted;
  }

  /** Without redactions the whole text is settled at once. */
  lemma PlainSettles(combined: string, final: bool)
    ensures Settled([], combined, combined, |combined|, final)
  {
    forall more | MayFollow(final, more)
      ensures Redact([], combined + more) == combined + Redact([], combined[|combined|..] + more)
    {
      NothingToRedact(combined + more);
      NothingToRedact(more);
      assert combined[|combined|..] + more == more;
    }
  }

  class ProcessMonitor {
    const redactions: seq<string>
    const redactionOverlap: nat
    var pendingStderr: string
    var tail: string
    /** Everything consumed, and everything appended to the tail so far. */
    ghost var stream: string
    ghost var emitted: string

    ghost predicate Valid()
      reads this
    {
      && Ordered(redactions) && redactionOverlap == Overlap(redactions)
      && tail == LastChars(emitted)
      && Tracks(redactions, stream, emitted, pendingStderr, false)
    }

    constructor (values: seq<string>)
      ensures Valid() && stream == "" && pendingStderr == ""
      ensures forall v :: v in redactions <==> v in values && v != ""
    {
      var ordered := OrderRedactions(values);
      redactions := ordered;
      redactionOverlap := if ordered == [] then 0 else |ordered[0]| - 1;
      pendingStderr, tail := "", "";
      stream, emitted := "", "";
    }

    /** `_append_tail`. */
    method AppendTail(text: string)
      requires tail == LastChars(emitted)
      modifies this`tail, this`emitted
      ensures emitted == old(emitted) + text && tail == LastChars(emitted)
    {
      LastCharsOfAppend(emitted, text);
      tail := LastChars(tail + text);
      emitted := emitted + text;
    }

    /** `_consume_stderr`. */
    method ConsumeStderr(chunk: string, final: bool)
      requires Valid()
      modifies this`pendingStderr, this`tail, this`stream, this`emitted
      ensures stream == old(stream) + chunk && tail == LastChars(emitted)
      ensures !final ==> Valid()
      ensures final ==> pendingStderr == "" && emitted == Redact(redactions, stream)
    {
      hide Tracks, Settled, Redact;
      var combined := pendingStderr + chunk;
      ChunkArrives(redactions, stream, emitted, pendingStderr, chunk);
      stream := stream + chunk;
      if redactions == [] {
        PlainSettles(combined, final);
        ChunkSettles(redactions, stream, emitted, combined, combined, |combined|, final);
        assert combined[|combined|..] == "";
        pendingStderr := "";
        AppendTail(combined);
      } else {
        var holdback := if final then 0 else redactionOverlap;
        var safeEnd := if |combined| > holdback then |combined| - holdback else 0;
        SafePositionsAreDecided(redactions, combined, safeEnd, final);
        var out, cursor := RedactUpTo(combined, safeEnd, final);
        ChunkSettles(redactions, stream, emitted, combined, out, cursor, final);
        pendingStderr := combined[cursor..];
        AppendTail(out);
      }
      if final {
        assert pendingStderr == "";
        NothingPending(redactions, stream, emitted, final);
      }
    }

    /** The `finditer` loop of `_consume_stderr`, which stops at the first match from `safeEnd` on. */
    method RedactUpTo(combined: string, safeEnd: nat, final: bool) returns (out: string, cursor: nat)
      requires Ordered(redactions) && safeEnd <= |combined| && (final ==> safeEnd == |combined|)
      requires forall i | 0 <= i < safeEnd :: Decided(redactions, combined, i, final)
      ensures safeEnd <= cursor <= |combined|
      ensures Settled(redactions, combined, out, cursor, final)
    {
      hide Settled, Decided, Longest;
      out, cursor := "", 0;
      NothingSettled(redactions, combined, final);
      var matching := true;
      while matching
        invariant cursor <= |combined| && Settled(redactions, combined, out, cursor, final)
        invariant !matching ==> forall i | cursor <= i < safeEnd :: Longest(redactions, combined[i..]) == 0
        decreases matching, |combined| - cursor
      {
        var start, length := NextMatch(combined, cursor);
        if length == 0 || start >= safeEnd {
          matching := false;
        } else {
          SettleStretch(redactions, combined, out, cursor, start, final);
          out := out + combined[cursor..start];
          SettleMatch(redactions, combined, out, start, length, final);
          out := out + MARKER;
          cursor := start + length;
        }
      }
      if cursor < safeEnd {
        SettleStretch(redactions, combined, out, cursor, safeEnd, final);
        out := out + combined[cursor..safeEnd];
        cursor := safeEnd;
      }
    }

    /** The next match of the pattern at or after `from`; length 0 means that there is none. */
    method NextMatch(text: string, from: nat) returns (start: nat, length: nat)
      requires Ordered(redactions) && from <= |text|
      ensures from <= start <= |text| && start + length <= |text|
      ensures length == 0 ==> start == |text|
      ensures length > 0 ==> start < |text| && length == Longest(redactions, text[start..])
      ensures forall i | from <= i < start :: Longest(redactions, text[i..]) == 0
    {
      start, length := from, 0;
      while start < |text|
        invariant from <= start <= |text|
        invariant length == 0
        invariant forall i | from <= i < start :: Longest(redactions, text[i..]) == 0
      {
        FirstMatchIsLongest(redactions, text[start..]);
        length := FirstMatch(redactions, text[start..]);
        if length > 0 {
          return;
        }
        start := start + 1;
      }
    }
  }

  /** The constructor's grouping by length, longest group first, each group in arbitrary order. */
  method OrderRedactions(values: seq<string>) returns (ordered: seq<string>)
    ensures Ordered(ordered)
    ensures forall v :: v in ordered <==> v in values && v != ""
  {
    var byLength: map<nat, set<string>> := map[];
    var longest := 0;
    for i := 0 to |values|
      invariant forall n | n in byLength :: 0 < n <= longest && IsGroup(byLength[n], n, values)
      invariant forall v | v in values[..i] && v != "" :: |v| <= longest && |v| in byLength && v in byLength[|v|]
    {
      var value := values[i];
      assert values[..i + 1] == values[..i] + [value];
      if value != "" {
        var group := if |value| in byLength then byLength[|value|] else {};
        byLength := byLength[|value| := group + {value}];
        longest := if |value| > longest then |value| else longest;
      }
      assert forall v :: v in values[..i + 1] <==> v in values[..i] || v == value;
    }
    assert values[..|values|] == values;
    ordered := [];
    var length := longest;
    while length > 0
      invariant Ordered(ordered) && forall v | v in ordered :: |v| > length
      invariant forall v | v in ordered :: v in values
      invariant forall v | v in values && v != "" && |v| > length :: v in ordered
    {
      if length in byLength {
        ordered := AppendGroup(ordered, byLength[length], length);
      }
      length := length - 1;
    }
  }

  predicate IsGroup(group: set<string>, length: nat, values: seq<string>) {
    forall v | v in group :: |v| == length && v in values
  }

  method AppendGroup(before: seq<string>, group: set<string>, length: nat) returns (ordered: seq<string>)
    requires Ordered(before) && length > 0
    requires forall v | v in before :: |v| > length
    requires forall v | v in group :: |v| == length
    ensures Ordered(ordered) && forall v :: v in ordered <==> v in before || v in group
  {
    ordered := before;
    var rest := group;
    while rest != {}
      invariant rest <= group && Ordered(ordered)
      invariant forall v | v in ordered :: |v| >= length
      invariant forall v :: v in ordered <==> v in before || v in group - rest
      decreases rest
    {
      var v :| v in rest;
      ordered := ordered + [v];
      rest := rest - {v};
    }
  }

  /** `_drain_stderr`: however the stream is cut into chunks, the final tail is the last 1000 characters of the
      whole stream redacted at once. */
  method DrainStderr(monitor: ProcessMonitor, chunks: seq<string>)
    requires monitor.Valid() && monitor.stream == ""
    modifies monitor
    ensures monitor.tail == LastChars(Redact(monitor.redactions, Concat(chunks)))
    ensures monitor.pendingStderr == ""
  {
    for i := 0 to |chunks|
      invariant monitor.Valid() && monitor.stream == Concat(chunks[..i])
    {
      monitor.ConsumeStderr(chunks[i], false);
      assert chunks[..i + 1][..i] == chunks[..i];
    }
    assert chunks[..|chunks|] == chunks;
    monitor.ConsumeStderr("", true);
    assert Concat(chunks) + "" == Concat(chunks);
  }

  function Concat(chunks: seq<string>): string {
    if chunks == [] then "" else Concat(chunks[..|chunks| - 1]) + chunks[|chunks| - 1]
  }
}
