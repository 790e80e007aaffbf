/** The Raspberry Pi camera's EXIF "maker note" (`parse_maker_note`) and the
    fixed-width key/value line used to print it (`kv_to_string`). The note
    is text of space-separated `key=value` entries in which some values
    themselves contain spaces. */
module MakerNote {
  import opened Results

  // ---- str.split with a one-character separator ----

  /** Python's `s.split(sep)` for a single-character `sep`: never empty,
      and empty pieces are kept (two separators in a row give `""`). */
  function Split(s: string, sep: char): (parts: seq<string>)
    ensures |parts| >= 1
  {
    if |s| == 0 then [""]
    else
      var rest := Split(s[1..], sep);
      if s[0] == sep then [""] + rest else [[s[0]] + rest[0]] + rest[1..]
  }

  /** One piece more than there are separators. */
  lemma {:induction false} SplitCount(s: string, sep: char)
    ensures |Split(s, sep)| == multiset(s)[sep] + 1
  {
    if |s| > 0 {
      SplitCount(s[1..], sep);
      assert s == [s[0]] + s[1..];
      assert multiset(s) == multiset{s[0]} + multiset(s[1..]);
    }
  }

  /** No piece holds the separator. */
  lemma {:induction false} SplitClean(s: string, sep: char)
    ensures forall i :: 0 <= i < |Split(s, sep)| ==> sep !in Split(s, sep)[i]
  {
    if |s| > 0 {
      var rest := Split(s[1..], sep);
      SplitClean(s[1..], sep);
      if s[0] != sep {
        var parts := Split(s, sep);
        assert sep !in [s[0]] + rest[0];
        forall i | 1 <= i < |parts|
          ensures sep !in parts[i]
        {
          assert parts[i] == rest[i];
        }
      }
    }
  }

  /** Joining the pieces gives the text back. */
  lemma {:induction false} SplitJoinBack(s: string, sep: char)
    ensures Join(Split(s, sep), sep) == s
  {
    if |s| > 0 {
      var rest := Split(s[1..], sep);
      SplitJoinBack(s[1..], sep);
      if s[0] != sep && |rest| > 1 {
        assert rest == [rest[0]] + rest[1..];
        assert Join(rest, sep) == rest[0] + [sep] + Join(rest[1..], sep);
      }
      assert s == [s[0]] + s[1..];
    }
  }

  /** There is a separator exactly when the split gives more than one piece. */
  lemma SplitFindsSeparator(s: string, sep: char)
    ensures sep in s <==> |Split(s, sep)| >= 2
  {
    SplitCount(s, sep);
    assert sep in s <==> multiset(s)[sep] > 0;
  }

  /** `sep.join(parts)`. */
  function Join(parts: seq<string>, sep: char): string
    requires |parts| >= 1
  {
    if |parts| == 1 then parts[0] else parts[0] + [sep] + Join(parts[1..], sep)
  }

  lemma JoinSnoc(parts: seq<string>, last: string, sep: char)
    requires |parts| >= 1
    ensures Join(parts + [last], sep) == Join(parts, sep) + [sep] + last
  {
    if |parts| > 1 {
      assert (parts + [last])[1..] == parts[1..] + [last];
      JoinSnoc(parts[1..], last, sep);
    }
  }

  /** Joining pieces that do not contain the separator and splitting again
      gives the pieces back. */
  lemma {:induction false} SplitJoin(parts: seq<string>, sep: char)
    requires |parts| >= 1
    requires forall i :: 0 <= i < |parts| ==> sep !in parts[i]
    ensures Split(Join(parts, sep), sep) == parts
  {
    if |parts| == 1 {
      SplitWithout(parts[0], sep);
    } else {
      SplitJoin(parts[1..], sep);
      SplitPrefix(parts[0], Join(parts[1..], sep), sep);
      assert [parts[0]] + parts[1..] == parts;
    }
  }

  lemma {:induction false} SplitWithout(s: string, sep: char)
    requires sep !in s
    ensures Split(s, sep) == [s]
  {
    if |s| > 0 {
      assert sep !in s[1..];
      SplitWithout(s[1..], sep);
      assert [s[0]] + s[1..] == s;
    }
  }

  lemma {:induction false} SplitPrefix(a: string, b: string, sep: char)
    requires sep !in a
    ensures Split(a + [sep] + b, sep) == [a] + Split(b, sep)
  {
    var s := a + [sep] + b;
    if |a| == 0 {
      assert s[1..] == b;
    } else {
      assert s[1..] == a[1..] + [sep] + b;
      assert sep !in a[1..];
      SplitPrefix(a[1..], b, sep);
      assert [a[0]] + a[1..] == a;
    }
  }

  // ---- parse_maker_note ----

  /** Why a note is rejected: a continuation with no entry before it to
      extend (the `KeyError` on `None`), or an entry with more than one `=`
      (the two-name unpacking fails). */
  datatype ParseError = NoCurrentKey(token: string) | NotKeyValue(token: string)

  type Parameters = map<string, string>

  /** The loop's state: the entries so far and the key of the latest entry. */
  datatype State = State(params: Parameters, last: Option<string>) {
    ghost predicate Valid() {
      last.Some? ==> last.value in params
    }
  }

  const Start: State := State(map[], None)

  /** A token that holds an `=` starts a new entry. */
  predicate IsEntry(token: string) {
    '=' in token
  }

  /** Splitting on `=` gives at most two names; with `SplitPieces`, this
      is the token holding at most one `=`. */
  predicate Splittable(token: string) {
    |Split(token, '=')| <= 2
  }

  /** The key of an entry token: the text before its `=`. */
  function KeyOf(token: string): (k: string)
    requires IsEntry(token) && Splittable(token)
    ensures '=' !in k
  {
    SplitClean(token, '=');
    Split(token, '=')[0]
  }

  /** The value of an entry token: the text after its `=`. */
  function ValueOf(token: string): (v: string)
    requires IsEntry(token) && Splittable(token)
    ensures '=' !in v
    ensures token == KeyOf(token) + "=" + v
  {
    SplitClean(token, '=');
    SplitJoinBack(token, '=');
    SplitFindsSeparator(token, '=');
    var kv := Split(token, '=');
    assert Join(kv, '=') == kv[0] + "=" + kv[1];
    kv[1]
  }

  /** One iteration of the loop over the tokens. */
  function Step(st: State, token: string): (r: Result<State, ParseError>)
    requires st.Valid()
    ensures r.Ok? ==> r.value.Valid()
    ensures r.Ok? <==> (if IsEntry(token) then Splittable(token) else st.last.Some?)
    ensures r.Err? ==> r.error == (if IsEntry(token) then NotKeyValue(token) else NoCurrentKey(token))
  {
    if IsEntry(token) then
      SplitFindsSeparator(token, '=');
      var kv := Split(token, '=');
      if |kv| != 2 then Err(NotKeyValue(token))
      else Ok(State(st.params[kv[0] := kv[1]], Some(kv[0])))
    else if st.last.None? then Err(NoCurrentKey(token))
    else
      var k := st.last.value;
      Ok(State(st.params[k := st.params[k] + " " + token], st.last))
  }

  /** The loop over a sequence of tokens, stopping at the first error. */
  function Run(tokens: seq<string>, st: State): (r: Result<State, ParseError>)
    requires st.Valid()
    ensures r.Ok? ==> r.value.Valid()
    decreases |tokens|
  {
    if |tokens| == 0 then Ok(st)
    else
      var next :- Step(st, tokens[0]);
      Run(tokens[1..], next)
  }

  /** `parse_maker_note`: the note split on single spaces, read token by
      token. */
  function ParseMakerNote(note: string): (r: Result<Parameters, ParseError>)
    ensures r.Ok? <==> WellFormed(Split(note, ' '))
  {
    RunOk(Split(note, ' '), Start);
    var st :- Run(Split(note, ' '), Start);
    Ok(st.params)
  }

  /** A token sequence the loop accepts: it opens with an entry and no token
      holds two `=`. */
  predicate WellFormed(tokens: seq<string>) {
    (|tokens| == 0 || IsEntry(tokens[0])) && forall i :: 0 <= i < |tokens| ==> Splittable(tokens[i])
  }

  /** The loop succeeds exactly when every token splits and the first
      continuation, if any, has an entry before it. */
  lemma {:induction false} RunOk(tokens: seq<string>, st: State)
    requires st.Valid()
    ensures Run(tokens, st).Ok? <==>
      ((st.last.Some? || |tokens| == 0 || IsEntry(tokens[0])) && forall i :: 0 <= i < |tokens| ==> Splittable(tokens[i]))
  {
    if |tokens| > 0 {
      var s := Step(st, tokens[0]);
      if s.Ok? {
        RunOk(tokens[1..], s.value);
        assert s.value.last.Some?;
        forall i | 0 < i < |tokens|
          ensures tokens[i] == tokens[1..][i - 1]
        {
        }
        if !IsEntry(tokens[0]) {
          SplitFindsSeparator(tokens[0], '=');
        }
      }
    }
  }

  /** The error is the first token that breaks the rules. */
  lemma {:induction false} RunFirstError(tokens: seq<string>, st: State, n: nat)
    requires st.Valid() && n < |tokens|
    requires forall i :: 0 <= i < n ==> Splittable(tokens[i])
    requires st.last.Some? || IsEntry(tokens[0]) || n == 0
    requires IsEntry(tokens[n]) ==> !Splittable(tokens[n])
    requires !IsEntry(tokens[n]) ==> n == 0 && st.last.None?
    ensures Run(tokens, st) == Err(if IsEntry(tokens[n]) then NotKeyValue(tokens[n]) else NoCurrentKey(tokens[n]))
  {
    if n > 0 {
      var s := Step(st, tokens[0]);
      assert s.Ok?;
      RunFirstError(tokens[1..], s.value, n - 1);
    }
  }

  /** A rejected note reports its first offending token. */
  lemma ParseFailsAtFirstBadToken(note: string, n: nat)
    requires n < |Split(note, ' ')|
    requires forall i :: 0 <= i < n ==> Splittable(Split(note, ' ')[i])
    requires IsEntry(Split(note, ' ')[0]) || n == 0
    requires IsEntry(Split(note, ' ')[n]) ==> !Splittable(Split(note, ' ')[n])
    requires !IsEntry(Split(note, ' ')[n]) ==> n == 0
    ensures ParseMakerNote(note) == Err(if IsEntry(Split(note, ' ')[n]) then NotKeyValue(Split(note, ' ')[n])
                                        else NoCurrentKey(Split(note, ' ')[n]))
  {
    RunFirstError(Split(note, ' '), Start, n);
  }

  /** An empty note is a single empty token with no entry before it. */
  lemma EmptyNoteFails()
    ensures ParseMakerNote("") == Err(NoCurrentKey(""))
  {
    assert Split("", ' ') == [""];
  }

  /** A run over a concatenation that succeeds is the run over the first
      part followed by the run over the second. */
  lemma {:induction false} RunSplit(a: seq<string>, b: seq<string>, st: State)
    requires st.Valid() && Run(a + b, st).Ok?
    ensures Run(a, st).Ok? && Run(a + b, st) == Run(b, Run(a, st).value)
  {
    if |a| > 0 {
      assert (a + b)[0] == a[0] && (a + b)[1..] == a[1..] + b;
      var next := Step(st, a[0]).value;
      assert Run(a + b, st) == Run(a[1..] + b, next);
      RunSplit(a[1..], b, next);
      assert Run(a, st) == Run(a[1..], next);
    } else {
      assert a + b == b;
    }
  }

  /** Continuation tokens append to the current entry's value, one space
      before each. */
  lemma {:induction false} Continue(cs: seq<string>, st: State, k: string, done: seq<string>)
    requires st.Valid() && st.last == Some(k) && |done| >= 1
    requires st.params[k] == Join(done, ' ')
    requires forall i :: 0 <= i < |cs| ==> !IsEntry(cs[i])
    ensures Run(cs, st).Ok?
    ensures Run(cs, st).value.last == Some(k)
    ensures Run(cs, st).value.params[k] == Join(done + cs, ' ')
  {
    if |cs| > 0 {
      var next := Step(st, cs[0]).value;
      assert Run(cs, st) == Run(cs[1..], next);
      JoinSnoc(done, cs[0], ' ');
      assert done + [cs[0]] + cs[1..] == done + cs;
      Continue(cs[1..], next, k, done + [cs[0]]);
    } else {
      assert done + cs == done;
    }
  }

  /** Tokens that never name `k` leave its value alone, once the current
      entry is another one. */
  lemma {:induction false} Untouched(ts: seq<string>, st: State, k: string)
    requires st.Valid() && k in st.params && Run(ts, st).Ok?
    requires |ts| == 0 || st.last != Some(k) || IsEntry(ts[0])
    requires forall i :: 0 <= i < |ts| && IsEntry(ts[i]) && Splittable(ts[i]) ==> KeyOf(ts[i]) != k
    ensures k in Run(ts, st).value.params && Run(ts, st).value.params[k] == st.params[k]
  {
    if |ts| > 0 {
      var next := Step(st, ts[0]).value;
      if IsEntry(ts[0]) {
        assert KeyOf(ts[0]) != k;
      }
      Untouched(ts[1..], next, k);
    }
  }

  /** The value an entry token leaves in the state. */
  lemma EntryStep(st: State, token: string)
    requires st.Valid() && IsEntry(token) && Step(st, token).Ok?
    ensures Step(st, token).value.last == Some(KeyOf(token))
    ensures Step(st, token).value.params[KeyOf(token)] == Join([ValueOf(token)], ' ')
  {
  }

  /** The state a run reaches after an entry and its continuations. */
  lemma UpToNextEntry(ts: seq<string>, st: State, i: nat, j: nat) returns (c: State)
    requires st.Valid() && Run(ts, st).Ok?
    requires i < j <= |ts| && IsEntry(ts[i]) && Splittable(ts[i])
    requires forall t :: i < t < j ==> !IsEntry(ts[t])
    ensures c.Valid() && c.last == Some(KeyOf(ts[i]))
    ensures c.params[KeyOf(ts[i])] == Join([ValueOf(ts[i])] + ts[i + 1..j], ' ')
    ensures Run(ts, st) == Run(ts[j..], c)
  {
    var k := KeyOf(ts[i]);
    var tail := [ts[i]] + ts[i + 1..j] + ts[j..];
    assert ts == ts[..i] + tail;
    RunSplit(ts[..i], tail, st);
    var a := Run(ts[..i], st).value;
    assert tail == [ts[i]] + (ts[i + 1..j] + ts[j..]);
    RunSplit([ts[i]], ts[i + 1..j] + ts[j..], a);
    assert Run([ts[i]], a) == Step(a, ts[i]);
    var b := Step(a, ts[i]).value;
    EntryStep(a, ts[i]);
    Continue(ts[i + 1..j], b, k, [ValueOf(ts[i])]);
    RunSplit(ts[i + 1..j], ts[j..], b);
    c := Run(ts[i + 1..j], b).value;
  }

  /** The run-level form of `ValueIsTextToNextEntry`. */
  lemma RunValue(ts: seq<string>, st: State, i: nat, j: nat)
    requires st.Valid() && Run(ts, st).Ok?
    requires i < j <= |ts| && IsEntry(ts[i]) && Splittable(ts[i])
    requires forall t :: i < t < j ==> !IsEntry(ts[t])
    requires j < |ts| ==> IsEntry(ts[j])
    requires forall t :: j <= t < |ts| && IsEntry(ts[t]) && Splittable(ts[t]) ==> KeyOf(ts[t]) != KeyOf(ts[i])
    ensures KeyOf(ts[i]) in Run(ts, st).value.params
    ensures Run(ts, st).value.params[KeyOf(ts[i])] == Join([ValueOf(ts[i])] + ts[i + 1..j], ' ')
  {
    var c := UpToNextEntry(ts, st, i, j);
    var rest := ts[j..];
    assert forall t :: 0 <= t < |rest| ==> rest[t] == ts[j + t];
    Untouched(rest, c, KeyOf(ts[i]));
  }

  /** What a parsed value is: the text after the `=` of the LAST entry with
      that key, then each following continuation token with one space before
      it, up to the next entry. Earlier entries with the same key are
      overwritten. */
  lemma ValueIsTextToNextEntry(note: string, i: nat, j: nat)
    requires ParseMakerNote(note).Ok?
    requires i < j <= |Split(note, ' ')|
    requires IsEntry(Split(note, ' ')[i])
    requires forall t :: i < t < j ==> !IsEntry(Split(note, ' ')[t])
    requires j < |Split(note, ' ')| ==> IsEntry(Split(note, ' ')[j])
    requires forall t :: j <= t < |Split(note, ' ')| && IsEntry(Split(note, ' ')[t]) ==>
      KeyOf(Split(note, ' ')[t]) != KeyOf(Split(note, ' ')[i])
    ensures KeyOf(Split(note, ' ')[i]) in ParseMakerNote(note).value
    ensures ParseMakerNote(note).value[KeyOf(Split(note, ' ')[i])]
      == Join([ValueOf(Split(note, ' ')[i])] + Split(note, ' ')[i + 1..j], ' ')
  {
    RunValue(Split(note, ' '), Start, i, j);
  }

  /** The keys of a parsed note are the keys of its entries. */
  lemma {:induction false} RunKeys(ts: seq<string>, st: State)
    requires st.Valid() && Run(ts, st).Ok?
    ensures forall i :: 0 <= i < |ts| && IsEntry(ts[i]) ==> Splittable(ts[i]) && KeyOf(ts[i]) in Run(ts, st).value.params
    ensures forall k :: k in Run(ts, st).value.params ==>
      k in st.params || exists i :: 0 <= i < |ts| && IsEntry(ts[i]) && Splittable(ts[i]) && KeyOf(ts[i]) == k
  {
    if |ts| > 0 {
      var next := Step(st, ts[0]).value;
      RunKeys(ts[1..], next);
      assert forall i :: 1 <= i < |ts| ==> ts[i] == ts[1..][i - 1];
      if IsEntry(ts[0]) {
        KeysKept(ts[1..], next, KeyOf(ts[0]));
      }
    }
  }

  lemma {:induction false} KeysKept(ts: seq<string>, st: State, k: string)
    requires st.Valid() && Run(ts, st).Ok? && k in st.params
    ensures k in Run(ts, st).value.params
  {
    if |ts| > 0 {
      KeysKept(ts[1..], Step(st, ts[0]).value, k);
    }
  }

  lemma ParsedKeys(note: string)
    requires ParseMakerNote(note).Ok?
    ensures forall k :: k in ParseMakerNote(note).value <==>
      exists i :: 0 <= i < |Split(note, ' ')| && IsEntry(Split(note, ' ')[i])
               && Splittable(Split(note, ' ')[i]) && KeyOf(Split(note, ' ')[i]) == k
  {
    RunKeys(Split(note, ' '), Start);
    assert ParseMakerNote(note).value == Run(Split(note, ' '), Start).value.params;
  }

  lemma DoubleSpaceTokens()
    ensures Split("ev=1  2", ' ') == ["ev=1", "", "2"]
    ensures Split("ev=1", '=') == ["ev", "1"]
  {
    assert Join(["ev=1", "", "2"], ' ') == "ev=1  2";
    SplitJoin(["ev=1", "", "2"], ' ');
    assert "ev" + ['='] + "1" == "ev=1";
    SplitPrefix("ev", "1", '=');
    SplitWithout("1", '=');
  }

  lemma SingleEntryContinues(k: string, v: string, token: string)
    requires !IsEntry(token)
    ensures Step(State(map[k := v], Some(k)), token) == Ok(State(map[k := v + " " + token], Some(k)))
  {
    assert map[k := v][k := v + " " + token] == map[k := v + " " + token];
  }

  /** Two spaces in a row make an empty continuation token, so the value
      keeps both spaces. */
  lemma DoubleSpaceKept()
    ensures ParseMakerNote("ev=1  2") == Ok(map["ev" := "1  2"])
  {
    var ts := ["ev=1", "", "2"];
    DoubleSpaceTokens();
    var s1 := Step(Start, "ev=1").value;
    assert s1 == State(map["ev" := "1"], Some("ev"));
    assert "1" + " " + "" == "1 " && "1 " + " " + "2" == "1  2";
    assert !IsEntry("") && !IsEntry("2");
    SingleEntryContinues("ev", "1", "");
    var s2 := Step(s1, "").value;
    SingleEntryContinues("ev", "1 ", "2");
    var s3 := Step(s2, "2").value;
    assert Run(ts, Start) == Run(ts[1..], s1);
    assert Run(ts[1..], s1) == Run(ts[2..], s2);
    assert Run(ts[2..], s2) == Run([], s3);
  }

  // ---- kv_to_string ----

  const KeyWidth: nat := 28

  function Spaces(n: nat): (s: string)
    ensures |s| == n && forall i :: 0 <= i < n ==> s[i] == ' '
  {
    seq(n, _ => ' ')
  }

  /** `kv_to_string(k, v)`: the key right-aligned in a field of 28
      characters, never cut, then `": "` and the value. */
  function KvToString(k: string, v: string): (line: string)
    ensures |line| == (if |k| < KeyWidth then KeyWidth else |k|) + 2 + |v|
    ensures line[..|line| - |v| - 2][|line| - |v| - 2 - |k|..] == k
    ensures forall i :: 0 <= i < |line| - |v| - 2 - |k| ==> line[i] == ' '
    ensures line[|line| - |v| - 2..] == ": " + v
  {
    var pad := if |k| < KeyWidth then KeyWidth - |k| else 0;
    Spaces(pad) + k + ": " + v
  }

  /** Leading spaces removed. */
  function TrimStart(s: string): (t: string)
    ensures |t| <= |s| && t == s[|s| - |t|..] && (|t| > 0 ==> t[0] != ' ')
  {
    if |s| > 0 && s[0] == ' ' then TrimStart(s[1..]) else s
  }

  lemma {:induction false} TrimSpaces(n: nat, k: string)
    requires |k| == 0 || k[0] != ' '
    ensures TrimStart(Spaces(n) + k) == k
  {
    if n > 0 {
      assert (Spaces(n) + k)[1..] == Spaces(n - 1) + k;
      TrimSpaces(n - 1, k);
    }
  }

  /** Reading back a line whose key fits the field. */
  function ReadKv(line: string): Option<(string, string)> {
    if |line| >= KeyWidth + 2 && line[KeyWidth..KeyWidth + 2] == ": "
    then Some((TrimStart(line[..KeyWidth]), line[KeyWidth + 2..]))
    else None
  }

  /** Keys of at most 28 characters line up: the colon is always in column
      28, and a key that does not start with a space reads back unchanged
      with its value. */
  lemma KvReadsBack(k: string, v: string)
    requires |k| <= KeyWidth && (|k| == 0 || k[0] != ' ')
    ensures ReadKv(KvToString(k, v)) == Some((k, v))
  {
    var line := KvToString(k, v);
    assert line == Spaces(KeyWidth - |k|) + k + ": " + v;
    assert line[..KeyWidth] == Spaces(KeyWidth - |k|) + k;
    TrimSpaces(KeyWidth - |k|, k);
  }

  /** A longer key is printed whole, pushing the colon to the right. */
  lemma KvLongKeyWhole(k: string, v: string)
    requires |k| >= KeyWidth
    ensures KvToString(k, v) == k + ": " + v
  {
  }
}
