/** Escaping and unescaping of characters. */
module Escape {

  function Escaped<T(==)>(input: seq<T>, escape: T, chars: seq<T>): seq<T>
  {
    if input == [] then []
    else (if input[0] in chars then [escape, input[0]] else [input[0]]) + Escaped(input[1..], escape, chars)
  }

  function Unescaped<T(==)>(input: seq<T>, escape: T, chars: seq<T>): seq<T>
  {
    if input == [] then []
    else if input[0] == escape && |input| > 1 && input[1] in chars
    then [input[1]] + Unescaped(input[2..], escape, chars)
    else [input[0]] + Unescaped(input[1..], escape, chars)
  }

  lemma EmptyTexts<T>(escape: T, chars: seq<T>)
    ensures Escaped([], escape, chars) == [] && Unescaped([], escape, chars) == []
  {
  }

  /** One round of the escaping loop. */
  lemma EscapeNext<T>(input: seq<T>, escape: T, chars: seq<T>, i: nat, output: seq<T>)
    requires i < |input|
    ensures var more := Escaped(input[i + 1..], escape, chars);
            output + Escaped(input[i..], escape, chars) ==
            if input[i] in chars then output + [escape] + [input[i]] + more else output + [input[i]] + more
  {
    assert input[i..][1..] == input[i + 1..];
  }

  method EscapeString<T(==)>(input: seq<T>, escape: T, chars: seq<T>) returns (output: seq<T>)
    ensures output == Escaped(input, escape, chars)
  {
    output := [];
    assert input[0..] == input;
    hide Escaped;
    for i := 0 to |input|
      invariant output + Escaped(input[i..], escape, chars) == Escaped(input, escape, chars)
    {
      EscapeNext(input, escape, chars, i, output);
      if input[i] in chars {
        output := output + [escape];
      }
      output := output + [input[i]];
    }
    EmptyTexts(escape, chars);
  }

  /** One round of the unescaping loop. */
  lemma UnescapeNext<T>(input: seq<T>, escape: T, chars: seq<T>, it: nat, output: seq<T>)
    requires it < |input|
    ensures var rest := Unescaped(input[it..], escape, chars);
            if input[it] == escape && it + 1 < |input| && input[it + 1] in chars
            then output + rest == (output + [input[it + 1]]) + Unescaped(input[it + 2..], escape, chars)
            else output + rest == (output + [input[it]]) + Unescaped(input[it + 1..], escape, chars)
  {
    var here := input[it..];
    assert here[1..] == input[it + 1..];
    if |here| > 1 {
      assert here[2..] == input[it + 2..] && here[1] == input[it + 1];
    }
  }

  method UnescapeString<T(==)>(input: seq<T>, escape: T, chars: seq<T>) returns (output: seq<T>)
    ensures output == Unescaped(input, escape, chars)
  {
    output := [];
    var it := 0;
    assert input[0..] == input;
    hide Unescaped;
    while it != |input|
      invariant it <= |input|
      invariant output + Unescaped(input[it..], escape, chars) == Unescaped(input, escape, chars)
      decreases |input| - it
    {
      var c := input[it];
      UnescapeNext(input, escape, chars, it, output);
      if c == escape && it + 1 != |input| && input[it + 1] in chars {
        it := it + 1;
        output := output + [input[it]];
      } else {
        output := output + [c];
      }
      it := it + 1;
    }
    assert Unescaped(input[it..], escape, chars) == [] by {
      EmptyTexts(escape, chars);
    }
  }

  /** Escaping works character by character: a character of the set gets the escape character in front
      of it, any other stays as it is. */
  lemma {:induction false} EscapedJoin<T>(a: seq<T>, b: seq<T>, escape: T, chars: seq<T>)
    ensures Escaped(a + b, escape, chars) == Escaped(a, escape, chars) + Escaped(b, escape, chars)
    ensures |a| == 1 ==> Escaped(a, escape, chars) == if a[0] in chars then [escape, a[0]] else a
  {
    hide Escaped;
    EmptyTexts(escape, chars);
    if a == [] {
      assert a + b == b;
    } else {
      EscapedFirst(a, escape, chars);
      EscapedFirst(a + b, escape, chars);
      EscapedJoin(a[1..], b, escape, chars);
      assert (a + b)[1..] == a[1..] + b;
    }
  }

  lemma EscapedFirst<T>(input: seq<T>, escape: T, chars: seq<T>)
    requires input != []
    ensures var head := if input[0] in chars then [escape, input[0]] else [input[0]];
            Escaped(input, escape, chars) == head + Escaped(input[1..], escape, chars)
  {
  }

  /** Only escape characters directly before a character of the set are removed: text without such a pair
      stays as it is. */
  lemma {:induction false} NothingToUnescape<T>(input: seq<T>, escape: T, chars: seq<T>)
    requires forall i :: 0 <= i < |input| - 1 && input[i] == escape ==> input[i + 1] !in chars
    ensures Unescaped(input, escape, chars) == input
  {
    if input != [] {
      var tail := input[1..];
      forall i | 0 <= i < |tail| - 1 && tail[i] == escape ensures tail[i + 1] !in chars {
        assert input[i + 1] == escape;
      }
      NothingToUnescape(tail, escape, chars);
    }
  }

  /** An escape character that is not itself escaped never stands before an escaped one by accident:
      the first character of escaped text is escapable only if the escape character is. */
  lemma FirstEscaped<T>(input: seq<T>, escape: T, chars: seq<T>)
    requires input != [] && escape !in chars
    ensures Escaped(input, escape, chars) != [] && Escaped(input, escape, chars)[0] !in chars
  {
  }

  /** Unescaping undoes escaping, for every text, every escape character and every set, whether or
      not the escape character is in the set. */
  lemma {:induction false} UnescapeUndoesEscape<T>(input: seq<T>, escape: T, chars: seq<T>)
    ensures Unescaped(Escaped(input, escape, chars), escape, chars) == input
  {
    if input != [] {
      var text, tail := Escaped(input, escape, chars), Escaped(input[1..], escape, chars);
      UnescapeUndoesEscape(input[1..], escape, chars);
      if input[0] in chars {
        assert text[2..] == tail;
      } else {
        assert text[1..] == tail;
        if input[0] == escape && input[1..] != [] {
          FirstEscaped(input[1..], escape, chars);
        }
      }
    }
  }
}
