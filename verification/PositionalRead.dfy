/** `pread_exact` (`src/sys/pread.rs`) over a kernel that may return fewer bytes than it was asked for. */
module PositionalRead {
  import opened Wrappers

  type Byte = bv8

  datatype IoError = OsError | UnexpectedEof

  /** The bytes that a list of `pread` return values delivered. */
  function Total(responses: seq<int>): nat {
    if responses == [] then 0
    else
      var last := responses[|responses| - 1];
      Total(responses[..|responses| - 1]) + (if last > 0 then last else 0)
  }

  lemma TotalOfAppend(responses: seq<int>, ret: int)
    ensures Total(responses + [ret]) == Total(responses) + (if ret > 0 then ret else 0)
  {
    assert (responses + [ret])[..|responses|] == responses;
  }

  /** What `pread(2)` at `pos` into the part of a buffer from `total` may do to it: it delivers `ret` bytes of
      the file. */
  ghost predicate Delivered(before: seq<Byte>, after: seq<Byte>, file: seq<Byte>, total: nat, pos: nat, ret: int) {
    && |after| == |before| && total <= |before| && -1 <= ret <= |before| - total
    && if ret <= 0 then after == before
       else
         && pos + ret <= |file|
         && after == before[..total] + file[pos..pos + ret] + before[total + ret..]
  }

  /** `pread(2)`: an error, or any number of bytes up to what was asked for and what the file has there. */
  method Pread(file: seq<Byte>, buf: array<Byte>, total: nat, pos: nat) returns (ret: int)
    requires total <= buf.Length
    modifies buf
    ensures Delivered(old(buf[..]), buf[..], file, total, pos, ret)
  {
    var there := if pos <= |file| then |file| - pos else 0;
    var most := if there < buf.Length - total then there else buf.Length - total;
    ret :| -1 <= ret <= most;
    if ret > 0 {
      forall i | 0 <= i < ret {
        buf[total + i] := file[pos + i];
      }
    }
  }

  /** The first `total` bytes of the buffer are those of the file from `offset`, and the others as they were. */
  ghost predicate Filled(original: seq<Byte>, now: seq<Byte>, file: seq<Byte>, offset: nat, total: nat) {
    && |now| == |original| && total <= |now|
    && now[total..] == original[total..]
    && (total > 0 ==> offset + total <= |file| && now[..total] == file[offset..offset + total])
  }

  lemma FillsMore(
    original: seq<Byte>, before: seq<Byte>, after: seq<Byte>, file: seq<Byte>, offset: nat, total: nat, ret: nat)
    requires Filled(original, before, file, offset, total) && ret > 0
    requires Delivered(before, after, file, total, offset + total, ret)
    ensures Filled(original, after, file, offset, total + ret)
  {
    assert after[total + ret..] == before[total + ret..] == before[total..][ret..];
    assert after[..total + ret] == before[..total] + file[offset + total..offset + total + ret];
    assert file[offset..offset + total + ret]
        == file[offset..offset + total] + file[offset + total..offset + total + ret];
  }

  predicate AllPositive(responses: seq<int>) {
    forall x | x in responses :: x > 0
  }

  /** How the calls of `pread` of one loop went: all delivered something, or all but the last did. */
  predicate EndsWith(responses: seq<int>, r: Result<(), IoError>) {
    match r
    case Ok(_) => AllPositive(responses)
    case Err(e) =>
      && |responses| > 0 && AllPositive(responses[..|responses| - 1])
      && var last := responses[|responses| - 1]; last <= 0 && (e.UnexpectedEof? <==> last == 0)
  }

  lemma Appended(responses: seq<int>, ret: int)
    requires AllPositive(responses)
    ensures Total(responses + [ret]) == Total(responses) + (if ret > 0 then ret else 0)
    ensures AllPositive(responses + [ret]) <==> ret > 0
    ensures ret < 0 ==> EndsWith(responses + [ret], Err(OsError))
    ensures ret == 0 ==> EndsWith(responses + [ret], Err(UnexpectedEof))
  {
    TotalOfAppend(responses, ret);
    assert (responses + [ret])[..|responses|] == responses;
    assert ret in responses + [ret];
  }

  /** `pread_exact`. `responses` are the return values of `pread`, in order. Whatever they are, the loop ends; it
      succeeds if and only if every one was positive, and then they fill the buffer, which holds exactly the range of
      the file; otherwise the last one was 0 or negative and says which error. The bytes delivered are in place either
      way. */
  method PreadExact(file: seq<Byte>, buf: array<Byte>, offset: nat)
    returns (r: Result<(), IoError>, responses: seq<int>)
    modifies buf
    ensures r.Ok? <==> AllPositive(responses) && Total(responses) == buf.Length
    ensures EndsWith(responses, r)
    ensures r.Ok? && (buf.Length > 0 || offset <= |file|) ==>
              offset + buf.Length <= |file| && buf[..] == file[offset..offset + buf.Length]
    ensures Filled(old(buf[..]), buf[..], file, offset, Total(responses))
  {
    ghost var original := buf[..];
    var total := 0;
    responses := [];
    while total < buf.Length
      invariant total == Total(responses) <= buf.Length && AllPositive(responses)
      invariant Filled(original, buf[..], file, offset, total)
    {
      ghost var before := buf[..];
      var ret := Pread(file, buf, total, offset + total);
      Appended(responses, ret);
      responses := responses + [ret];
      if ret < 0 {
        return Err(OsError), responses;
      }
      if ret == 0 {
        return Err(UnexpectedEof), responses;
      }
      FillsMore(original, before, buf[..], file, offset, total, ret);
      total := total + ret;
    }
    FilledToTheEnd(original, buf[..], file, offset);
    return Ok(()), responses;
  }

  lemma FilledToTheEnd(original: seq<Byte>, now: seq<Byte>, file: seq<Byte>, offset: nat)
    requires Filled(original, now, file, offset, |now|)
    ensures |now| > 0 || offset <= |file| ==> offset + |now| <= |file| && now == file[offset..offset + |now|]
  {
    assert now[..|now|] == now;
  }
}
