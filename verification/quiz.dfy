/**
  The game's quiz bookkeeping: the letters a question may ask for, the
  words the third level keeps, and the shrinking pool of words that ends
  that level.
 */
module Quiz {
  import opened Wrappers
  import opened Matrix

  /** The key that leaves a level; it is never asked for. */
  const ExitKey: string := "P"

  /** A key-map entry that can be asked for: present, non-empty and not the exit key. */
  predicate Askable(e: Option<string>)
  {
    e.Some? && e.value != "" && e.value != ExitKey
  }

  /** The askable symbols of one row, in column order. */
  function RowCandidates(row: seq<Option<string>>): (cs: seq<string>)
  {
    if row == [] then [] else (if Askable(row[0]) then [row[0].value] else []) + RowCandidates(row[1..])
  }

  /** The askable symbols of a key map, flattened row by row. */
  function Candidates(keys: KeyMap): (cs: seq<string>)
  {
    if keys == [] then [] else RowCandidates(keys[0]) + Candidates(keys[1..])
  }

  lemma {:induction false} RowCandidatesMembership(row: seq<Option<string>>, s: string)
    ensures s in RowCandidates(row) <==> exists c :: 0 <= c < |row| && row[c] == Some(s) && Askable(row[c])
  {
    if row != [] {
      RowCandidatesMembership(row[1..], s);
      if s in RowCandidates(row[1..]) {
        var c :| 0 <= c < |row[1..]| && row[1..][c] == Some(s) && Askable(row[1..][c]);
        assert row[c + 1] == Some(s);
      }
      if exists c :: 0 <= c < |row| && row[c] == Some(s) && Askable(row[c]) {
        var c :| 0 <= c < |row| && row[c] == Some(s) && Askable(row[c]);
        if c > 0 {
          assert row[1..][c - 1] == Some(s);
        }
      }
    }
  }

  /** A symbol is a candidate exactly when some entry of the key map holds it and may be asked for. */
  lemma {:induction false} CandidatesMembership(keys: KeyMap, s: string)
    ensures s in Candidates(keys) <==>
      exists r, c :: 0 <= r < |keys| && 0 <= c < |keys[r]| && keys[r][c] == Some(s) && Askable(keys[r][c])
  {
    if keys != [] {
      CandidatesMembership(keys[1..], s);
      RowCandidatesMembership(keys[0], s);
      if s in Candidates(keys[1..]) {
        var r, c :| 0 <= r < |keys[1..]| && 0 <= c < |keys[1..][r]| && keys[1..][r][c] == Some(s) && Askable(keys[1..][r][c]);
        assert keys[r + 1][c] == Some(s);
      }
      if s in RowCandidates(keys[0]) {
        var c :| 0 <= c < |keys[0]| && keys[0][c] == Some(s) && Askable(keys[0][c]);
        assert keys[0][c] == Some(s);
      }
      if exists r, c :: 0 <= r < |keys| && 0 <= c < |keys[r]| && keys[r][c] == Some(s) && Askable(keys[r][c]) {
        var r, c :| 0 <= r < |keys| && 0 <= c < |keys[r]| && keys[r][c] == Some(s) && Askable(keys[r][c]);
        if r > 0 {
          assert keys[1..][r - 1][c] == Some(s);
        }
      }
    }
  }

  /** The exit key is never a candidate, and neither is the empty string. */
  lemma ExitKeyNeverAsked(keys: KeyMap)
    ensures ExitKey !in Candidates(keys)
    ensures "" !in Candidates(keys)
  {
    CandidatesMembership(keys, ExitKey);
    CandidatesMembership(keys, "");
  }

  /** The askable symbols of row 0 of the game's key map. */
  lemma GameRow0()
    ensures RowCandidates(GameKeys[0]) == ["A", "B", "C", "D", "E", "F"]
  {
  }

  /** The askable symbols of row 1 of the game's key map. */
  lemma GameRow1()
    ensures RowCandidates(GameKeys[1]) == ["G", "H", "I", "J", "K", "L"]
  {
  }

  /** The askable symbols of row 2 of the game's key map; the exit key drops out. */
  lemma GameRow2()
    ensures RowCandidates(GameKeys[2]) == ["M", "N", "O", "Q", "R"]
  {
  }

  /** The askable symbols of row 3 of the game's key map. */
  lemma GameRow3()
    ensures RowCandidates(GameKeys[3]) == ["S", "T", "U", "V", "W", "X"]
  {
  }

  /** The askable symbols of row 4 of the game's key map. */
  lemma GameRow4()
    ensures RowCandidates(GameKeys[4]) == ["Y", "Z", "1", "2", "3", "4"]
  {
  }

  /** The candidates of a key map of five rows, row by row. */
  lemma CandidatesOfFiveRows(keys: KeyMap)
    requires |keys| == 5
    ensures Candidates(keys) == RowCandidates(keys[0]) + RowCandidates(keys[1]) + RowCandidates(keys[2]) + RowCandidates(keys[3]) + RowCandidates(keys[4])
  {
    var k1, k2, k3, k4 := keys[1..], keys[2..], keys[3..], keys[4..];
    assert k1[0] == keys[1] && k2[0] == keys[2] && k3[0] == keys[3] && k4[0] == keys[4];
    assert k1[1..] == k2 && k2[1..] == k3 && k3[1..] == k4 && k4[1..] == [];
    assert Candidates(k4) == RowCandidates(keys[4]) + [];
    assert Candidates(k3) == RowCandidates(keys[3]) + Candidates(k4);
    assert Candidates(k2) == RowCandidates(keys[2]) + Candidates(k3);
    assert Candidates(k1) == RowCandidates(keys[1]) + Candidates(k2);
  }

  /** The game's key map offers 29 symbols to ask for: every key but the exit key, row by row. */
  lemma GameCandidates()
    ensures Candidates(GameKeys) ==
      ["A", "B", "C", "D", "E", "F"] + ["G", "H", "I", "J", "K", "L"] + ["M", "N", "O", "Q", "R"] +
      ["S", "T", "U", "V", "W", "X"] + ["Y", "Z", "1", "2", "3", "4"]
  {
    GameRow0(); GameRow1(); GameRow2(); GameRow3(); GameRow4();
    CandidatesOfFiveRows(GameKeys);
  }

  /** A third-level question: a word and the letter it starts with. */
  datatype Question = Question(word: string, letter: string)

  /** The third level's questions, in the order they are written. */
  const Questions: seq<Question> := [
    Question("Kangourou", "K"), Question("Avion", "A"), Question("Bateau", "B"), Question("Chat", "C"),
    Question("Maison", "M"), Question("Orange", "O"), Question("Lion", "L"), Question("Girafe", "G"),
    Question("Elephant", "E"), Question("Nid", "N"), Question("Iguane", "I"), Question("Jardin", "J"),
    Question("Domino", "D"), Question("Fleur", "F"), Question("Hibou", "H"),
    Question("Quille", "Q"), Question("Robot", "R"), Question("Serpent", "S"), Question("Table", "T"),
    Question("Uniforme", "U"), Question("Vache", "V"), Question("Wagon", "W"), Question("Xylophone", "X"),
    Question("Yaourt", "Y"), Question("Zebre", "Z")]

  /** The questions whose letter is on the keyboard and may be asked for, in their order. */
  function Available(qs: seq<Question>, keys: KeyMap): (r: seq<Question>)
    ensures |r| <= |qs|
    ensures forall q :: q in r <==> q in qs && q.letter in Candidates(keys)
  {
    if qs == [] then []
    else (if qs[0].letter in Candidates(keys) then [qs[0]] else []) + Available(qs[1..], keys)
  }

  /** The letters of a list of questions, in order. */
  function Letters(qs: seq<Question>): (ls: seq<string>)
    ensures |ls| == |qs|
    ensures forall i :: 0 <= i < |qs| ==> ls[i] == qs[i].letter
  {
    seq(|qs|, i requires 0 <= i < |qs| => qs[i].letter)
  }

  /** A filter that rejects nothing is the identity. */
  lemma {:induction false} AvailableKeepsAll(qs: seq<Question>, keys: KeyMap)
    requires forall i :: 0 <= i < |qs| ==> Letters(qs)[i] in Candidates(keys)
    ensures Available(qs, keys) == qs
  {
    if qs != [] {
      assert Letters(qs)[0] in Candidates(keys);
      assert forall i :: 0 <= i < |qs| - 1 ==> Letters(qs[1..])[i] == Letters(qs)[i + 1];
      AvailableKeepsAll(qs[1..], keys);
    }
  }

  /** The third level asks for 25 distinct letters: the alphabet without the exit key. */
  lemma QuestionLetters()
    ensures Letters(Questions) == [
      "K", "A", "B", "C", "M", "O", "L", "G", "E", "N", "I", "J", "D", "F", "H",
      "Q", "R", "S", "T", "U", "V", "W", "X", "Y", "Z"]
  {
  }

  /** Each of the 25 question letters is among the game's candidates. */
  lemma LettersOnGameKeys(ls: seq<string>, cs: seq<string>)
    requires ls == [
      "K", "A", "B", "C", "M", "O", "L", "G", "E", "N", "I", "J", "D", "F", "H",
      "Q", "R", "S", "T", "U", "V", "W", "X", "Y", "Z"]
    requires cs ==
      ["A", "B", "C", "D", "E", "F"] + ["G", "H", "I", "J", "K", "L"] + ["M", "N", "O", "Q", "R"] +
      ["S", "T", "U", "V", "W", "X"] + ["Y", "Z", "1", "2", "3", "4"]
    ensures forall i :: 0 <= i < |ls| ==> ls[i] in cs
  {
  }

  /** On the game's keyboard every one of the 25 questions stays available, in its place. */
  lemma AllQuestionsAvailable()
    ensures Available(Questions, GameKeys) == Questions
  {
    var qs, keys := Questions, GameKeys;
    GameCandidates();
    QuestionLetters();
    LettersOnGameKeys(Letters(qs), Candidates(keys));
    AvailableKeepsAll(qs, keys);
  }

  /** The words of a list of questions, in order. */
  function Words(qs: seq<Question>): (ws: seq<string>)
    ensures |ws| == |qs|
    ensures forall i :: 0 <= i < |qs| ==> ws[i] == qs[i].word
  {
    seq(|qs|, i requires 0 <= i < |qs| => qs[i].word)
  }

  /** Remove the first occurrence of `w`, as a list's remove does; nothing changes when `w` is absent. */
  function RemoveFirst(ws: seq<string>, w: string): (r: seq<string>)
    ensures w in ws ==> multiset(r) == multiset(ws) - multiset{w} && |r| == |ws| - 1
    ensures w !in ws ==> r == ws
  {
    if ws == [] then []
    else
      assert ws == [ws[0]] + ws[1..];
      if ws[0] == w then ws[1..] else [ws[0]] + RemoveFirst(ws[1..], w)
  }

  /** How one question ended: the right key, the 30 s limit, or the exit key. */
  datatype Outcome = Found | TimedOut | Quit

  /** The answer at the "continue?" prompt. */
  datatype Answer = Continue | Stop

  /** How the third level ended. */
  datatype Ending = NoQuestions | PoolEmpty | LeftMidQuestion | LeftAtPrompt

  /**
    The third level's round loop.  The random pick, the player's keys
    during a question and at the prompt are arbitrary: `pick(k)` chooses
    the word of round `k` (taken modulo the pool), `outcome(k)` says how
    the question went and `answer(k)` what was pressed at the prompt.
    Each answered or timed-out word leaves the pool, so the level ends.
   */
  method PlayLevel3(words: seq<string>, pick: nat -> nat, outcome: nat -> Outcome, answer: nat -> Answer)
    returns (asked: seq<string>, remaining: seq<string>, ending: Ending)
    ensures multiset(asked) + multiset(remaining) == multiset(words)
    ensures ending == NoQuestions <==> words == []
    ensures ending == PoolEmpty <==> words != [] && remaining == []
    ensures ending == PoolEmpty ==> multiset(asked) == multiset(words)
    ensures (forall k :: outcome(k) != Quit && answer(k) == Continue) ==> ending == PoolEmpty || ending == NoQuestions
  {
    asked, remaining := [], words;
    if words == [] {
      return asked, remaining, NoQuestions;
    }
    var k := 0;
    while true
      invariant multiset(asked) + multiset(remaining) == multiset(words)
      invariant remaining != []
      decreases |remaining|
    {
      var w := remaining[pick(k) % |remaining|];
      if outcome(k) == Quit {
        ending := LeftMidQuestion;
        return;
      }
      asked := asked + [w];
      remaining := RemoveFirst(remaining, w);
      if remaining == [] {
        ending := PoolEmpty;
        return;
      }
      if answer(k) == Stop {
        ending := LeftAtPrompt;
        return;
      }
      k := k + 1;
    }
  }

  /**
    The third level on a question table and a key map: the pool is the
    words of the questions still available, in table order, and the round
    loop runs on it.  The level ends for lack of questions before its
    first round exactly when no question is available.
   */
  method Level3(qs: seq<Question>, keys: KeyMap, pick: nat -> nat, outcome: nat -> Outcome, answer: nat -> Answer)
    returns (asked: seq<string>, remaining: seq<string>, ending: Ending)
    ensures multiset(asked) + multiset(remaining) == multiset(Words(Available(qs, keys)))
    ensures |asked| + |remaining| == |Available(qs, keys)|
    ensures ending == NoQuestions <==> Available(qs, keys) == []
  {
    var words := Words(Available(qs, keys));
    asked, remaining, ending := PlayLevel3(words, pick, outcome, answer);
    assert |multiset(asked)| + |multiset(remaining)| == |multiset(words)|;
  }

  /**
    On the game's key map the third level's pool starts with all 25 words
    of its question table, so it never ends for lack of questions.
   */
  lemma GamePool()
    ensures Words(Available(Questions, GameKeys)) == Words(Questions)
    ensures |Available(Questions, GameKeys)| == 25
  {
    AllQuestionsAvailable();
  }
}
