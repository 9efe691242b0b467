// Mnemonic phrases as text: writing the words of data, and reading them back.
module Phrase {
  import opened Common
  import opened Radix
  import opened BitStrings
  import opened Mnemonic

  // A word list: the right number of distinct words, none empty and none with a space.
  ghost predicate IsWordList(words: seq<string>) {
    && |words| == 2048
    && (forall i :: 0 <= i < 2048 ==> words[i] != "" && ' ' !in words[i])
    && forall i, j :: 0 <= i < j < 2048 ==> words[i] != words[j]
  }

  function Join(words: seq<string>, idx: seq<nat>): string
    requires |words| == 2048 && Proper(2048, idx)
  {
    if idx == [] then ""
    else if |idx| == 1 then words[idx[0]]
    else words[idx[0]] + " " + Join(words, idx[1..])
  }

  lemma {:induction false} JoinAppend(words: seq<string>, idx: seq<nat>, i: nat)
    requires |words| == 2048 && Proper(2048, idx) && idx != [] && i < 2048
    ensures Join(words, idx + [i]) == Join(words, idx) + " " + words[i]
  {
    if |idx| == 1 {
      assert (idx + [i])[1..] == [i];
      assert idx == [idx[0]];
    } else {
      assert (idx + [i])[1..] == idx[1..] + [i];
      JoinAppend(words, idx[1..], i);
    }
  }

  function EncodedPhrase(hash: Hash, words: seq<string>, data: seq<nat>): string
    requires |words| == 2048 && |hash(data)| == 32 && Supported(data)
  {
    Join(words, Indices(hash, data, |data| * 3 / 4))
  }

  // ----- reading -----

  // The text begins with the word, and the word ends there.
  predicate Matches(word: string, s: string) {
    |word| <= |s| && s[..|word|] == word && (|word| == |s| || s[|word|] == ' ')
  }

  // The first word, from k on, that the text begins with.
  function Find(words: seq<string>, s: string, k: nat): (i: Option<nat>)
    requires k <= |words|
    ensures i.Some? ==> k <= i.value < |words| && Matches(words[i.value], s)
    ensures i.None? ==> forall j :: k <= j < |words| ==> !Matches(words[j], s)
    decreases |words| - k
  {
    if k == |words| then None else if Matches(words[k], s) then Some(k) else Find(words, s, k + 1)
  }

  // Position of the first space.
  function Space(s: string): (k: nat)
    ensures k <= |s| && ' ' !in s[..k] && (k < |s| ==> s[k] == ' ')
  {
    if s == "" || s[0] == ' ' then 0
    else
      assert s[..1 + Space(s[1..])] == [s[0]] + s[1..][..Space(s[1..])];
      1 + Space(s[1..])
  }

  // The text after the first space, if there is one.
  function Rest(s: string): (r: Option<string>)
    ensures r.Some? ==> |r.value| < |s|
  {
    if Space(s) < |s| then Some(s[Space(s) + 1..]) else None
  }

  datatype Scanned = Scanned(idx: seq<nat>, finished: bool)

  // At most n words, and whether the text ends with them.
  function Scan(words: seq<string>, s: string, n: nat): (r: Scanned)
    requires |words| == 2048
    ensures Proper(2048, r.idx) && |r.idx| <= n
    decreases n
  {
    if s == "" then Scanned([], true)
    else if n == 0 || Find(words, s, 0).None? then Scanned([], false)
    else
      var i := Find(words, s, 0).value;
      if Rest(s).None? then Scanned([i], true)
      else var r := Scan(words, Rest(s).value, n - 1); Scanned([i] + r.idx, r.finished)
  }

  // The data of a phrase whose words are all known, in a right number, and whose checksum is right;
  // nothing otherwise.
  function Decoded(hash: Hash, words: seq<string>, phrase: string): seq<nat>
    requires |words| == 2048 && IsDigest(hash)
  {
    var r := Scan(words, phrase, 24);
    if r.finished && Whole(r.idx) && ChecksumOk(hash, r.idx) then DataOf(r.idx) else []
  }

  // ----- the two directions -----

  // A word of the list is found by itself, whether the text ends there or goes on.
  lemma FindWord(words: seq<string>, i: nat, more: string)
    requires IsWordList(words) && i < 2048 && (more == "" || more[0] == ' ')
    ensures Find(words, words[i] + more, 0) == Some(i) && Space(words[i] + more) == |words[i]|
  {
    var s := words[i] + more;
    SpaceAfter(words[i], more);
    assert s[..|words[i]|] == words[i];
    assert Matches(words[i], s);
    var j := Find(words, s, 0).value;
    MatchIsFirst(words[j], s);
    assert words[j] == words[i];
  }

  lemma {:induction false} SpaceAfter(w: string, more: string)
    requires ' ' !in w && (more == "" || more[0] == ' ')
    ensures Space(w + more) == |w|
  {
    if w == "" {
      assert w + more == more;
    } else {
      assert (w + more)[1..] == w[1..] + more;
      assert w[0] in w && forall c :: c in w[1..] ==> c in w;
      SpaceAfter(w[1..], more);
    }
  }

  // A space-free word that matches is what stands before the first space.
  lemma MatchIsFirst(w: string, s: string)
    requires ' ' !in w && Matches(w, s)
    ensures w == s[..Space(s)]
  {
    var more := s[|w|..];
    assert s == w + more;
    SpaceAfter(w, more);
  }

  lemma {:induction false} ScanJoin(words: seq<string>, idx: seq<nat>, n: nat)
    requires IsWordList(words) && Proper(2048, idx) && |idx| <= n
    ensures Scan(words, Join(words, idx), n) == Scanned(idx, true)
  {
    hide Scan;
    if idx == [] {
      ScanNothing(words, n);
    } else if |idx| == 1 {
      ScanLast(words, idx[0], n);
      assert idx == [idx[0]];
    } else {
      ScanFirst(words, idx[0], Join(words, idx[1..]), n);
      ScanJoin(words, idx[1..], n - 1);
      assert idx == [idx[0]] + idx[1..];
    }
  }

  lemma ScanNothing(words: seq<string>, n: nat)
    requires |words| == 2048
    ensures Scan(words, "", n) == Scanned([], true)
  {
  }

  lemma ScanLast(words: seq<string>, i: nat, n: nat)
    requires IsWordList(words) && i < 2048 && n > 0
    ensures Scan(words, words[i], n) == Scanned([i], true)
  {
    hide Find, Space;
    FindWord(words, i, "");
    assert words[i] + "" == words[i];
  }

  lemma ScanFirst(words: seq<string>, i: nat, tail: string, n: nat)
    requires IsWordList(words) && i < 2048 && n > 0
    ensures var r := Scan(words, tail, n - 1);
            Scan(words, words[i] + " " + tail, n) == Scanned([i] + r.idx, r.finished)
  {
    hide Find, Space;
    FindWord(words, i, " " + tail);
    var s := words[i] + " " + tail;
    assert words[i] + (" " + tail) == s;
    assert s[|words[i]| + 1..] == tail;
  }

  lemma DecodeUndoesEncode(hash: Hash, words: seq<string>, data: seq<nat>)
    requires IsWordList(words) && IsDigest(hash) && Supported(data)
    ensures Decoded(hash, words, EncodedPhrase(hash, words, data)) == data
  {
    hide Scan, Join, Indices, ChecksumOk, DataOf;
    DataOfWords(hash, data);
    ScanJoin(words, Indices(hash, data, |data| * 3 / 4), 24);
  }

  // A text that is read to its end is the words read, with at most a space after them.
  lemma {:induction false} JoinScan(words: seq<string>, s: string, n: nat)
    requires IsWordList(words) && Scan(words, s, n).finished && s != ""
    ensures var t := Join(words, Scan(words, s, n).idx); s == t || s == t + " "
    decreases n
  {
    hide Find, Space;
    var i := Find(words, s, 0).value;
    MatchIsFirst(words[i], s);
    assert s == s[..Space(s)] + s[Space(s)..];
    if Rest(s).Some? {
      var rest := Rest(s).value;
      assert s == words[i] + " " + rest;
      var r := Scan(words, rest, n - 1);
      assert ([i] + r.idx)[1..] == r.idx;
      if rest != "" {
        JoinScan(words, rest, n - 1);
      }
    }
  }

  // The scan does not mind a space after the last word.
  lemma {:induction false} ScanJoinSpace(words: seq<string>, idx: seq<nat>, n: nat)
    requires IsWordList(words) && Proper(2048, idx) && 0 < |idx| <= n
    ensures Scan(words, Join(words, idx) + " ", n) == Scanned(idx, true)
  {
    hide Scan;
    var tail := if |idx| == 1 then "" else Join(words, idx[1..]) + " ";
    assert Join(words, idx) + " " == words[idx[0]] + " " + tail;
    ScanFirst(words, idx[0], tail, n);
    assert idx == [idx[0]] + idx[1..];
    if |idx| == 1 {
      ScanNothing(words, n - 1);
    } else {
      ScanJoinSpace(words, idx[1..], n - 1);
    }
  }

  // A phrase decodes to data exactly when it is the phrase of the data, but for a space at the end.
  lemma AcceptedIsEncoded(hash: Hash, words: seq<string>, phrase: string, data: seq<nat>)
    requires IsWordList(words) && IsDigest(hash) && data != []
    ensures Decoded(hash, words, phrase) == data <==>
              Supported(data) && (phrase == EncodedPhrase(hash, words, data)
                                  || phrase == EncodedPhrase(hash, words, data) + " ")
  {
    hide Join, Indices, ChecksumOk, DataOf;
    var r := Scan(words, phrase, 24);
    if Decoded(hash, words, phrase) == data {
      WordsOfData(hash, r.idx);
      JoinScan(words, phrase, 24);
    } else if Supported(data) {
      DataOfWords(hash, data);
      ScanJoin(words, Indices(hash, data, |data| * 3 / 4), 24);
      ScanJoinSpace(words, Indices(hash, data, |data| * 3 / 4), 24);
    }
  }

  // ----- the operations -----

  // The phrase with its terminating NUL, or the room it needs, or 0 when it does not fit.
  method Encode(hash: Hash, words: seq<string>, data: seq<nat>, capacity: Option<nat>)
    returns (len: nat, phrase: Option<string>)
    requires IsWordList(words) && IsDigest(hash) && Supported(data)
    ensures var text := EncodedPhrase(hash, words, data);
            && len == (if capacity.Some? && |text| + 1 > capacity.value then 0 else |text| + 1)
            && phrase == if capacity.Some? && |text| + 1 <= capacity.value then Some(text) else None
  {
    hide Join, IndexAt;
    var buf := data + hash(data);
    var text := "";
    var i := 0;
    JoinNone(words);
    while i < |data| * 3 / 4
      invariant 0 <= i <= |data| * 3 / 4 && text == Join(words, Indices(hash, data, i))
    {
      var word := words[IndexAt(buf, i)];
      if i > 0 {
        JoinAppend(words, Indices(hash, data, i), IndexAt(buf, i));
        text := text + " ";
      } else {
        JoinOne(words, IndexAt(buf, i));
      }
      text := text + word;
      i := i + 1;
    }
    len := |text| + 1;
    phrase := if capacity.Some? && len <= capacity.value then Some(text) else None;
    if capacity.Some? && len > capacity.value {
      len := 0;
    }
  }

  lemma JoinNone(words: seq<string>)
    requires |words| == 2048
    ensures Join(words, []) == ""
  {
  }

  lemma JoinOne(words: seq<string>, i: nat)
    requires |words| == 2048 && i < 2048
    ensures Join(words, [i]) == words[i] && [] + [i] == [i] && "" + words[i] == words[i]
  {
  }

  method FindIndex(words: seq<string>, s: string) returns (idx: Option<nat>)
    requires |words| == 2048
    ensures idx == Find(words, s, 0)
  {
    var i := 0;
    while i < 2048
      invariant 0 <= i <= 2048 && Find(words, s, 0) == Find(words, s, i)
    {
      if Matches(words[i], s) {
        return Some(i);
      }
      i := i + 1;
    }
    return None;
  }

  method FindSpace(s: string) returns (k: nat)
    ensures k == Space(s)
  {
    k := 0;
    assert s[0..] == s;
    while k < |s| && s[k] != ' '
      invariant 0 <= k <= |s| && Space(s) == k + Space(s[k..])
    {
      assert s[k..][1..] == s[k + 1..];
      k := k + 1;
    }
  }

  // The indices of the words, until the text ends, a word is unknown, or there are 24 of them.
  method ReadWords(words: seq<string>, phrase: string) returns (idx: seq<nat>, finished: bool)
    requires |words| == 2048
    ensures Scan(words, phrase, 24) == Scanned(idx, finished)
  {
    hide Find, Space, Scan, ToGo;
    idx := [];
    var word := Some(phrase);
    StartScan(words, phrase);
    while word.Some? && word.value != "" && |idx| < 24
      invariant |idx| <= 24 && ToGo(words, phrase, idx, word)
      decreases 24 - |idx|
    {
      var i := FindIndex(words, word.value);
      if i.None? {
        break;
      }
      StepScan(words, phrase, idx, word.value);
      idx := idx + [i.value];
      var k := FindSpace(word.value);
      word := if k < |word.value| then Some(word.value[k + 1..]) else None;
    }
    StopScan(words, phrase, idx, word);
    finished := word.None? || word.value == "";
  }

  // What has been read so far and what is left together make the whole reading.
  ghost predicate ToGo(words: seq<string>, phrase: string, idx: seq<nat>, word: Option<string>)
    requires |words| == 2048 && |idx| <= 24
  {
    if word.None? then Scan(words, phrase, 24) == Scanned(idx, true)
    else
      var r := Scan(words, word.value, 24 - |idx|);
      Scan(words, phrase, 24) == Scanned(idx + r.idx, r.finished)
  }

  lemma StartScan(words: seq<string>, phrase: string)
    requires |words| == 2048
    ensures ToGo(words, phrase, [], Some(phrase))
  {
    hide Scan;
    assert [] + Scan(words, phrase, 24).idx == Scan(words, phrase, 24).idx;
  }

  lemma StepScan(words: seq<string>, phrase: string, idx: seq<nat>, s: string)
    requires |words| == 2048 && |idx| < 24 && s != "" && ToGo(words, phrase, idx, Some(s)) && Find(words, s, 0).Some?
    ensures ToGo(words, phrase, idx + [Find(words, s, 0).value], Rest(s))
  {
    hide Find, Rest, Scan;
    ScanOne(words, s, 24 - |idx|);
    var i := Find(words, s, 0).value;
    if Rest(s).Some? {
      var t := Scan(words, Rest(s).value, 24 - |idx| - 1);
      assert idx + ([i] + t.idx) == idx + [i] + t.idx;
    }
  }

  lemma ScanOne(words: seq<string>, s: string, n: nat)
    requires |words| == 2048 && s != "" && n > 0 && Find(words, s, 0).Some?
    ensures Rest(s).None? ==> Scan(words, s, n) == Scanned([Find(words, s, 0).value], true)
    ensures Rest(s).Some? ==>
              var r := Scan(words, Rest(s).value, n - 1);
              Scan(words, s, n) == Scanned([Find(words, s, 0).value] + r.idx, r.finished)
  {
    hide Find, Rest;
  }

  lemma StopScan(words: seq<string>, phrase: string, idx: seq<nat>, word: Option<string>)
    requires |words| == 2048 && |idx| <= 24 && ToGo(words, phrase, idx, word)
    requires word.None? || word.value == "" || |idx| == 24 || Find(words, word.value, 0).None?
    ensures Scan(words, phrase, 24) == Scanned(idx, word.None? || word.value == "")
  {
    hide Find;
    assert idx + [] == idx;
  }

  // The bytes of the words, one at a time, and the last of them, which holds the checksum.
  method ReadBytes(idx: seq<nat>) returns (buf: seq<nat>, b: nat)
    requires Whole(idx)
    ensures buf == BytesOf(idx, (|idx| * 11 + 7) / 8) && b == ByteAt(idx, |idx| * 4 / 3)
  {
    hide ByteAt;
    buf, b := [], 0;
    var i := 0;
    while i < (|idx| * 11 + 7) / 8
      invariant 0 <= i <= (|idx| * 11 + 7) / 8 && buf == BytesOf(idx, i)
      invariant i > 0 ==> b == ByteAt(idx, i - 1)
    {
      b := ByteAt(idx, i);
      buf := buf + [b];
      i := i + 1;
    }
  }

  lemma {:induction false} BytesPrefix(idx: seq<nat>, m: nat, n: nat)
    requires m <= n <= (|idx| * 11 + 7) / 8
    ensures BytesOf(idx, n)[..m] == BytesOf(idx, m)
  {
    hide ByteAt;
    if m < n {
      BytesPrefix(idx, m, n - 1);
      assert BytesOf(idx, n)[..m] == BytesOf(idx, n - 1)[..m];
    }
  }

  // The data of a phrase, or how long it is; 0 when the phrase is not valid or it does not fit.
  method Decode(hash: Hash, words: seq<string>, phrase: string, capacity: Option<nat>)
    returns (len: nat, data: Option<seq<nat>>)
    requires |words| == 2048 && IsDigest(hash)
    ensures var d := Decoded(hash, words, phrase);
            && len == (if capacity.Some? && |d| > capacity.value then 0 else |d|)
            && (capacity.Some? && d != [] && |d| <= capacity.value ==> data == Some(d))
            && (d == [] ==> data == None)
  {
    hide Scan, ByteAt, BytesOf, Shr;
    len, data := 0, None;
    var idx, finished := ReadWords(words, phrase);
    if |idx| % 3 == 0 && finished && idx != [] {
      var buf, b := ReadBytes(idx);
      BytesPrefix(idx, |idx| * 4 / 3, (|idx| * 11 + 7) / 8);
      var digest := hash(buf[..|idx| * 4 / 3]);
      if Shr(b, 8 - |idx| / 3) == Shr(digest[0], 8 - |idx| / 3) {
        len := |idx| * 4 / 3;
        if capacity.Some? && len <= capacity.value {
          data := Some(buf[..len]);
        }
      }
    }
    if capacity.Some? && len > capacity.value {
      len := 0;
    }
  }
}
