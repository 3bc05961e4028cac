/** The parser object of lib/ftplistparser.c: a loop over the bytes of one network chunk that
    updates the parser's fields and its growable line buffer in place. */
module FtpListParser {
  import opened CText
  import opened Wrappers
  import L = FtpList

  const FTP_BUFFER_ALLOCSIZE: nat := 160

  class ListParser {
    var osType: L.OsType
    var unixState: L.UnixState
    var ntState: L.NtState
    var error: bool
    var itemLength: nat
    var itemOffset: nat
    var offsets: L.Offsets
    var filelist: seq<L.Entry>
    const compare: L.Filter

    // The file description being filled in; hasFile says whether it is allocated.
    var hasFile: bool
    var bData: array<char>
    var bUsed: nat
    var fileType: L.FileType
    var perm: Option<nat>
    var hardlinks: Option<nat>
    var size: Option<nat>

    /** The buffer always has a spare byte, and the automaton's offsets fit the bytes stored. */
    ghost predicate Valid()
      reads this, bData
    {
      Room() && L.Inv(Abs())
    }

    ghost predicate Room()
      reads this, bData
    {
      bUsed + 1 < bData.Length
    }

    ghost function Info(): L.Info
      reads this, bData
      requires Room()
    {
      L.Info(bData[..bUsed], fileType, perm, hardlinks, size)
    }

    ghost function Abs(): L.Parser
      reads this, bData
      requires Room()
    {
      L.Parser(osType, unixState, ntState, error, if hasFile then Some(Info()) else None,
               itemLength, itemOffset, offsets, filelist)
    }

    /** A byte has been stored behind the token that starts at itemOffset. */
    ghost predicate Behind(tokenLength: nat)
      reads this, bData
    {
      Room() && hasFile && !error && tokenLength <= itemLength && itemOffset + itemLength + 1 == bUsed
    }

    constructor (compare: L.Filter)
      ensures Valid() && fresh(bData) && Abs() == L.INITIAL && this.compare == compare
    {
      osType, unixState, ntState, error := L.OsUnknown, L.TotalInit, L.NtDate, false;
      itemLength, itemOffset, offsets, filelist := 0, 0, L.Offsets(0, 0, 0, 0, 0, 0), [];
      hasFile, bData, bUsed := false, new char[FTP_BUFFER_ALLOCSIZE], 0;
      fileType, perm, hardlinks, size := L.File, None, None, None;
      this.compare := compare;
    }

    method Allocate()
      requires Room()
      modifies this
      ensures Room() && hasFile && (bData == old(bData) || fresh(bData))
      ensures Abs() == L.Allocate(old(Abs()))
    {
      if !hasFile {
        hasFile, bUsed := true, 0;
        fileType, perm, hardlinks, size := L.File, None, None, None;
        bData := new char[FTP_BUFFER_ALLOCSIZE];
        itemOffset, itemLength := 0, 0;
      }
    }

    /** Store one byte, and extend the buffer when only its last byte is left. */
    method Store(c: char)
      requires Room() && hasFile
      modifies this`bData, this`bUsed, bData
      ensures Room() && (bData == old(bData) || fresh(bData))
      ensures bData[..bUsed] == old(bData[..bUsed]) + [c]
    {
      ghost var before := bData[..bUsed];
      bData[bUsed] := c;
      bUsed := bUsed + 1;
      assert bData[..bUsed] == before + [c];
      if bUsed >= bData.Length - 1 {
        Extend();
      }
    }

    method Append(c: char)
      requires Room()
      modifies this, bData
      ensures Room() && hasFile && (bData == old(bData) || fresh(bData))
      ensures Abs() == L.Append(old(Abs()), c)
    {
      Allocate();
      Store(c);
    }

    /** realloc: a larger block with the same content. */
    method Extend()
      requires bUsed <= bData.Length
      modifies this`bData
      ensures fresh(bData) && Room() && bData[..bUsed] == old(bData[..bUsed])
    {
      var bigger := new char[bData.Length + FTP_BUFFER_ALLOCSIZE];
      var i := 0;
      while i < bUsed
        invariant bData == old(bData) && bData[..] == old(bData[..])
        invariant 0 <= i <= bUsed && bigger[..i] == bData[..i]
      {
        bigger[i] := bData[i];
        i := i + 1;
      }
      bData := bigger;
    }

    method Grow()
      requires Room()
      modifies this`itemLength
      ensures Abs() == L.Grow(old(Abs()))
    {
      itemLength := itemLength + 1;
    }

    method StartToken(u: L.UnixState)
      requires Room() && hasFile && bUsed > 0
      modifies this`itemLength, this`itemOffset, this`unixState
      ensures Abs() == L.StartToken(old(Abs()), u)
    {
      itemOffset, itemLength, unixState := bUsed - 1, 1, u;
    }

    /** Terminate the current token over its last byte. */
    method EndToken()
      requires Room() && hasFile && 1 <= itemOffset + itemLength <= bUsed
      modifies bData
      ensures Abs() == L.EndToken(old(Abs()))
    {
      bData[itemOffset + itemLength - 1] := NUL;
      assert bData[..bUsed] == L.SetNul(old(bData[..bUsed]), itemOffset + itemLength - 1);
    }

    method Fail()
      requires Room()
      modifies this`error, this`hasFile
      ensures Abs() == L.Fail(old(Abs()))
    {
      error, hasFile := true, false;
    }

    /** strncmp/strtol/strtoofft read the buffer as a NUL-terminated string. */
    method ReadString(k: nat) returns (s: string)
      requires Room() && k <= bUsed
      ensures s == CStr(bData[..bUsed], k)
    {
      var b := bData[..bUsed];
      s := CStr(b, k);
    }

    method Insert()
      requires Room() && hasFile
      modifies this`hasFile, this`filelist
      ensures Abs() == L.Insert(old(Abs()), compare)
    {
      var e := L.Entry(L.Info(bData[..bUsed], fileType, perm, hardlinks, size), offsets);
      if compare(e.Filename()) {
        if !e.AmbiguousLink() {
          filelist := filelist + [e];
        }
      }
      hasFile := false;
    }

    // ---- one method per main state; the byte c has just been stored ----------------------

    /** Returns whether the same byte has to be looked at again (the i-- of the source). */
    method TotalStep(c: char) returns (again: bool)
      requires Room() && hasFile && !error
      requires unixState == L.TotalInit || unixState == L.TotalReading
      requires unixState == L.TotalReading ==> Behind(1) && itemOffset == 0
      modifies this, bData
      ensures Room() && bData == old(bData)
      ensures again <==> (old(unixState) == L.TotalInit && c != 't')
      ensures again ==> Abs() == L.WithBuf(old(Abs()), "").(unix := L.TypeChar)
      ensures !again ==> Abs() == L.TotalStep(old(Abs()), c)
    {
      hide L.TypeStep, L.EndTotal;
      again := false;
      if unixState == L.TotalInit {
        if c == 't' {
          unixState, itemLength := L.TotalReading, itemLength + 1;
        } else {
          unixState, bUsed, again := L.TypeChar, 0, true;
        }
      } else {
        itemLength := itemLength + 1;
        if c == '\r' {
          DropLast();
        } else if c == '\n' {
          EndTotal();
        }
      }
    }

    /** The byte just stored is taken back. */
    method DropLast()
      requires Room() && hasFile && 0 < bUsed && 0 < itemLength
      modifies this`bUsed, this`itemLength
      ensures Room()
      ensures var p := old(Abs());
        Abs() == L.WithBuf(p, p.file.value.buf[..L.Used(p) - 1]).(itemLength := p.itemLength - 1)
    {
      itemLength, bUsed := itemLength - 1, bUsed - 1;
      assert bData[..bUsed] == old(bData[..bUsed])[..bUsed];
    }

    method EndTotal()
      requires Room() && hasFile && !error && 1 <= itemLength <= bUsed
      modifies this, bData
      ensures Room() && bData == old(bData)
      ensures Abs() == L.EndTotal(old(Abs()))
    {
      bData[itemLength - 1] := NUL;
      ghost var b := bData[..bUsed];
      assert b == L.SetNul(old(bData[..bUsed]), itemLength - 1);
      var ok := false;
      if bUsed >= 6 && bData[..6] == "total " {
        assert b[..6] == bData[..6];
        var rest := ReadString(6);
        while rest != "" && IsSpace(rest[0])
          invariant L.SkipSpaces(rest) == L.SkipSpaces(CStr(b, 6))
          decreases |rest|
        {
          rest := rest[1..];
        }
        while rest != "" && IsDigit(rest[0])
          invariant L.SkipDigits(rest) == L.SkipDigits(L.SkipSpaces(CStr(b, 6)))
          decreases |rest|
        {
          rest := rest[1..];
        }
        ok := rest == "";
      }
      if ok {
        unixState, bUsed := L.TypeChar, 0;
      } else {
        Fail();
      }
    }

    method TypeStep(c: char)
      requires Room() && hasFile
      modifies this, bData
      ensures Room() && bData == old(bData)
      ensures Abs() == L.TypeStep(old(Abs()), c)
    {
      var t := L.TypeOf(c);
      if t.None? {
        Fail();
      } else {
        fileType := t.value;
        unixState, itemLength, itemOffset := L.Permission, 0, 1;
      }
    }

    method PermStep(c: char)
      requires Behind(0) && itemOffset == 1 && itemLength <= 9
      modifies this, bData
      ensures Room() && bData == old(bData)
      ensures Abs() == L.PermStep(old(Abs()), c)
    {
      Grow();
      if itemLength <= 9 {
        if !L.IsPermChar(c) {
          Fail();
        }
      } else if c != ' ' {
        Fail();
      } else {
        EndPerm();
      }
    }

    method EndPerm()
      requires Room() && hasFile && bUsed == 11 && itemOffset == 1
      modifies this, bData
      ensures Room() && bData == old(bData)
      ensures Abs() == L.EndPerm(old(Abs()))
    {
      bData[10] := NUL;
      ghost var b := bData[..bUsed];
      assert b == L.SetNul(old(bData[..bUsed]), 10);
      assert bData[itemOffset..bUsed] == b[1..];
      var bits := L.GetPermission(bData[itemOffset..bUsed]);
      if bits >= L.MALFORMED_PERM {
        Fail();
      } else {
        perm, offsets := Some(bits), offsets.(perm := itemOffset);
        itemLength, unixState := 0, L.HlinksPre;
      }
    }

    method HlinksStep(c: char)
      requires Room() && hasFile && !error && 2 <= bUsed
      requires unixState == L.HlinksPre || unixState == L.HlinksNumber
      requires unixState == L.HlinksPre || Behind(1)
      modifies this, bData
      ensures Room() && bData == old(bData)
      ensures Abs() == L.HlinksStep(old(Abs()), c)
    {
      if unixState == L.HlinksPre {
        if c != ' ' {
          if IsDigit(c) {
            StartToken(L.HlinksNumber);
          } else {
            Fail();
          }
        }
      } else {
        Grow();
        if c == ' ' {
          EndToken();
          EndHlinks();
        } else if !IsDigit(c) {
          Fail();
        }
      }
    }

    method EndHlinks()
      requires Room() && hasFile && itemOffset <= bUsed
      modifies this, bData
      ensures Room() && bData == old(bData)
      ensures Abs() == L.EndHlinks(old(Abs()))
    {
      hide CStr, L.LinkCount;
      var token := ReadString(itemOffset);
      var count := L.LinkCount(token);
      if count.Some? {
        hardlinks := count;
      }
      itemLength, itemOffset, unixState := 0, 0, L.UserPre;
    }

    method UserStep(c: char)
      requires Room() && hasFile && !error && 2 <= bUsed
      requires unixState == L.UserPre || unixState == L.UserParsing
      requires unixState == L.UserPre || Behind(1)
      modifies this, bData
      ensures Room() && bData == old(bData)
      ensures Abs() == L.UserStep(old(Abs()), c)
    {
      if unixState == L.UserPre {
        if c != ' ' {
          StartToken(L.UserParsing);
        }
      } else {
        Grow();
        if c == ' ' {
          EndToken();
          EndUser();
        }
      }
    }

    method EndUser()
      requires Room()
      modifies this, bData
      ensures Room() && bData == old(bData)
      ensures Abs() == L.EndUser(old(Abs()))
    {
      offsets, unixState := offsets.(user := itemOffset), L.GroupPre;
      itemOffset, itemLength := 0, 0;
    }

    method GroupStep(c: char)
      requires Room() && hasFile && !error && 2 <= bUsed
      requires unixState == L.GroupPre || unixState == L.GroupName
      requires unixState == L.GroupPre || Behind(1)
      modifies this, bData
      ensures Room() && bData == old(bData)
      ensures Abs() == L.GroupStep(old(Abs()), c)
    {
      if unixState == L.GroupPre {
        if c != ' ' {
          StartToken(L.GroupName);
        }
      } else {
        Grow();
        if c == ' ' {
          EndToken();
          EndGroup();
        }
      }
    }

    method EndGroup()
      requires Room()
      modifies this, bData
      ensures Room() && bData == old(bData)
      ensures Abs() == L.EndGroup(old(Abs()))
    {
      offsets, unixState := offsets.(group := itemOffset), L.SizePre;
      itemOffset, itemLength := 0, 0;
    }

    method SizeStep(c: char)
      requires Room() && hasFile && !error && 2 <= bUsed
      requires unixState == L.SizePre || unixState == L.SizeNumber
      requires unixState == L.SizePre || Behind(1)
      modifies this, bData
      ensures Room() && bData == old(bData)
      ensures Abs() == L.SizeStep(old(Abs()), c)
    {
      if unixState == L.SizePre {
        if c != ' ' {
          if IsDigit(c) {
            StartToken(L.SizeNumber);
          } else {
            Fail();
          }
        }
      } else {
        Grow();
        if c == ' ' {
          EndToken();
          EndSize();
        } else if !IsDigit(c) {
          Fail();
        }
      }
    }

    method EndSize()
      requires Room() && hasFile && itemOffset <= bUsed
      modifies this, bData
      ensures Room() && bData == old(bData)
      ensures Abs() == L.EndSize(old(Abs()))
    {
      hide CStr, L.StrToOff;
      var token := ReadString(itemOffset);
      var n := L.StrToOff(token);
      if n.OffOk? {
        if n.rest == "" && n.value != L.LONG_MAX {
          size := Some(n.value);
        }
        itemLength, itemOffset, unixState := 0, 0, L.TimePre1;
      }
    }

    method TimeStep(c: char)
      requires Room() && hasFile && !error && 2 <= bUsed
      requires L.IsTime(unixState)
      requires unixState == L.TimePre1 || Behind(1)
      modifies this, bData
      ensures Room() && bData == old(bData)
      ensures Abs() == L.TimeStep(old(Abs()), c)
    {
      if unixState == L.TimePre1 {
        if c != ' ' {
          if IsAlnum(c) {
            StartToken(L.TimePart1);
          } else {
            Fail();
          }
        }
        return;
      }
      Grow();
      if unixState == L.TimePre2 || unixState == L.TimePre3 {
        if c != ' ' {
          if IsAlnum(c) {
            unixState := if unixState == L.TimePre2 then L.TimePart2 else L.TimePart3;
          } else {
            Fail();
          }
        }
      } else if unixState == L.TimePart1 || unixState == L.TimePart2 {
        if c == ' ' {
          unixState := if unixState == L.TimePart1 then L.TimePre2 else L.TimePre3;
        } else if !IsAlnum(c) && c != '.' {
          Fail();
        }
      } else if c == ' ' {
        EndToken();
        EndTime();
      } else if !IsAlnum(c) && c != '.' && c != ':' {
        Fail();
      }
    }

    method EndTime()
      requires Room() && hasFile
      modifies this, bData
      ensures Room() && bData == old(bData)
      ensures Abs() == L.EndTime(old(Abs()))
    {
      offsets := offsets.(time := itemOffset);
      unixState := if fileType == L.Symlink then L.LinkPre else L.NamePre;
    }

    method NameStep(c: char)
      requires Room() && hasFile && !error && 2 <= bUsed
      requires unixState == L.NamePre || unixState == L.NameName || unixState == L.NameWinEol
      requires unixState == L.NamePre || Behind(1)
      modifies this, bData
      ensures Room() && bData == old(bData)
      ensures Abs() == L.NameStep(old(Abs()), c, compare)
    {
      if unixState == L.NamePre {
        if c != ' ' {
          StartToken(L.NameName);
        }
      } else if unixState == L.NameName {
        Grow();
        if c == '\r' {
          unixState := L.NameWinEol;
        } else if c == '\n' {
          EndName();
        }
      } else if c == '\n' {
        EndName();
      } else {
        Fail();
      }
    }

    method EndName()
      requires Room() && hasFile && 1 <= itemOffset + itemLength <= bUsed
      modifies this, bData
      ensures Room() && bData == old(bData)
      ensures Abs() == L.EndName(old(Abs()), compare)
    {
      EndToken();
      offsets, unixState := offsets.(filename := itemOffset), L.TypeChar;
      Insert();
    }

    method LinkStep(c: char)
      requires Room() && hasFile && !error && 2 <= bUsed
      requires L.IsLink(unixState)
      requires unixState == L.LinkPre || unixState == L.LinkPre4 || Behind(L.ArrowLength(unixState) + 1)
      modifies this, bData
      ensures Room() && bData == old(bData)
      ensures Abs() == L.LinkStep(old(Abs()), c, compare)
    {
      if unixState == L.LinkPre {
        if c != ' ' {
          StartToken(L.LinkName);
        }
      } else if unixState == L.LinkName {
        LinkArrow(c, ' ', L.LinkPre1);
      } else if unixState == L.LinkPre1 {
        LinkArrow(c, '-', L.LinkPre2);
      } else if unixState == L.LinkPre2 {
        LinkArrow(c, '>', L.LinkPre3);
      } else if unixState == L.LinkPre3 {
        if c == ' ' {
          Grow();
          EndLinkName();
        } else {
          LinkArrow(c, ' ', L.LinkPre4);
        }
      } else if unixState == L.LinkPre4 {
        if c != '\r' && c != '\n' {
          StartToken(L.LinkTarget);
        } else {
          Fail();
        }
      } else if unixState == L.LinkTarget {
        Grow();
        if c == '\r' {
          unixState := L.LinkWinEol;
        } else if c == '\n' {
          EndTarget();
        }
      } else if c == '\n' {
        EndTarget();
      } else {
        Fail();
      }
    }

    method EndLinkName()
      requires Room() && hasFile && 4 <= itemOffset + itemLength <= bUsed
      modifies this, bData
      ensures Room() && bData == old(bData)
      ensures Abs() == L.EndLinkName(old(Abs()))
    {
      bData[itemOffset + itemLength - 4] := NUL;
      assert bData[..bUsed] == L.SetNul(old(bData[..bUsed]), itemOffset + itemLength - 4);
      offsets, unixState := offsets.(filename := itemOffset), L.LinkPre4;
      itemLength, itemOffset := 0, 0;
    }

    method EndTarget()
      requires Room() && hasFile && 1 <= itemOffset + itemLength <= bUsed
      modifies this, bData
      ensures Room() && bData == old(bData)
      ensures Abs() == L.EndTarget(old(Abs()), compare)
    {
      EndToken();
      offsets, unixState := offsets.(target := itemOffset), L.TypeChar;
      Insert();
    }

    method LinkArrow(c: char, want: char, next: L.UnixState)
      requires Room()
      modifies this`itemLength, this`unixState, this`error, this`hasFile
      ensures Abs() == L.LinkArrow(L.Grow(old(Abs())), c, want, next)
    {
      Grow();
      if c == want {
        unixState := next;
      } else if c == '\r' || c == '\n' {
        Fail();
      } else {
        unixState := L.LinkName;
      }
    }

    method NtStep(c: char)
      requires Room() && hasFile && !error && 1 <= bUsed
      requires ntState == L.NtTime || ntState == L.DirOrSizeContent ==> Behind(0)
      modifies this, bData
      ensures Room() && bData == old(bData)
      ensures Abs() == L.NtStep(old(Abs()), c, compare)
    {
      match ntState
      case NtDate =>
        Grow();
        if itemLength < 9 {
          if !L.IsNtDateChar(c) {
            Fail();
          }
        } else if itemLength == 9 && c == ' ' {
          ntState := L.NtTimePre;
        } else {
          Fail();
        }
      case NtTimePre =>
        Grow();
        if !IsSpace(c) {
          ntState := L.NtTime;
        }
      case NtTime =>
        Grow();
        if c == ' ' {
          EndToken();
          EndNtTime();
        } else if !L.IsNtTimeChar(c) {
          Fail();
        }
      case DirOrSizePre =>
        if c != ' ' {
          StartToken(unixState);
          ntState := L.DirOrSizeContent;
        }
      case DirOrSizeContent =>
        Grow();
        if c == ' ' {
          EndToken();
          EndDirOrSize();
        }
      case NtNamePre =>
        if c != ' ' {
          StartToken(unixState);
          ntState := L.NtNameContent;
        }
      case NtNameContent => NtNameStep(c);
      case NtNameWinEol =>
        if c == '\n' {
          NtEndName();
        } else {
          Fail();
        }
    }

    method NtNameStep(c: char)
      requires Room() && hasFile && !error && 1 <= bUsed
      requires ntState == L.NtNameContent
      modifies this, bData
      ensures Room() && bData == old(bData)
      ensures Abs() == L.NtStep(old(Abs()), c, compare)
    {
      Grow();
      if c == '\r' {
        NtEndLine();
        ntState := L.NtNameWinEol;
      } else if c == '\n' {
        NtEndLine();
        NtEndName();
      }
    }

    /** The line end is overwritten by the terminator of the name. */
    method NtEndLine()
      requires Room() && hasFile && 1 <= bUsed
      modifies bData
      ensures Abs() == L.NtEndLine(old(Abs()))
    {
      bData[bUsed - 1] := NUL;
      assert bData[..bUsed] == L.SetNul(old(bData[..bUsed]), bUsed - 1);
    }

    method EndNtTime()
      requires Room()
      modifies this, bData
      ensures Room() && bData == old(bData)
      ensures Abs() == L.EndNtTime(old(Abs()))
    {
      offsets := offsets.(time := itemOffset);
      ntState, itemLength := L.DirOrSizePre, 0;
    }

    method EndDirOrSize()
      requires Room() && hasFile && itemOffset <= bUsed
      modifies this, bData
      ensures Room() && bData == old(bData)
      ensures Abs() == L.EndDirOrSize(old(Abs()))
    {
      var token := ReadString(itemOffset);
      if token == "<DIR>" {
        fileType, size := L.Directory, Some(0);
      } else {
        var n := L.StrToOff(token);
        if !n.OffOk? {
          Fail();
          return;
        }
        fileType, size := L.File, Some(n.value);
      }
      itemLength, ntState := 0, L.NtNamePre;
    }

    method NtEndName()
      requires Room() && hasFile
      modifies this, bData
      ensures Room() && bData == old(bData)
      ensures Abs() == L.NtEndName(old(Abs()), compare)
    {
      offsets := offsets.(filename := itemOffset);
      Insert();
      ntState := L.NtDate;
    }

    // ---- the byte loop --------------------------------------------------------------------

    method UnixStep(c: char) returns (again: bool)
      requires Room() && hasFile && L.StoredInv(Abs())
      modifies this, bData
      ensures Room() && bData == old(bData)
      ensures again <==> (old(unixState) == L.TotalInit && c != 't')
      ensures again ==> Abs() == L.WithBuf(old(Abs()), "").(unix := L.TypeChar)
      ensures !again ==> Abs() == L.UnixStep(old(Abs()), c, compare)
    {
      again := false;
      if unixState == L.TotalInit || unixState == L.TotalReading {
        again := TotalStep(c);
      } else if unixState == L.TypeChar {
        TypeStep(c);
      } else if unixState == L.Permission {
        PermStep(c);
      } else if unixState == L.HlinksPre || unixState == L.HlinksNumber {
        HlinksStep(c);
      } else if unixState == L.UserPre || unixState == L.UserParsing {
        UserStep(c);
      } else if unixState == L.GroupPre || unixState == L.GroupName {
        GroupStep(c);
      } else if unixState == L.SizePre || unixState == L.SizeNumber {
        SizeStep(c);
      } else if L.IsTime(unixState) {
        TimeStep(c);
      } else if L.IsLink(unixState) {
        LinkStep(c);
      } else {
        NameStep(c);
      }
    }

    /** One turn of the loop: the byte is stored and interpreted. With again the parser has
        only discarded it, and interpreting it once more gives the same as one spec step. */
    method Turn(c: char) returns (again: bool)
      requires Valid() && !error && osType != L.OsUnknown
      modifies this, bData
      ensures Valid() && (bData == old(bData) || fresh(bData))
      ensures again ==> old(unixState) == L.TotalInit && unixState == L.TypeChar
      ensures error || osType == old(osType)
      ensures again ==> L.Step(Abs(), c, compare) == L.Step(old(Abs()), c, compare)
      ensures !again ==> Abs() == L.Step(old(Abs()), c, compare)
    {
      ghost var p := Abs();
      L.StepKeepsInv(p, c, compare);
      Append(c);
      if osType == L.OsUnix {
        L.AppendStores(p, c);
        again := UnixStep(c);
        if again {
          L.Rescan(p, c, compare);
        }
      } else {
        again := false;
        NtStep(c);
      }
    }

    /** Curl_ftp_parselist on one chunk. The result is always the number of bytes offered, so
        that the transfer goes on; a failure is only recorded. */
    method ParseList(buffer: string) returns (retsize: nat)
      requires Valid()
      modifies this, bData
      ensures Valid() && (bData == old(bData) || fresh(bData))
      ensures retsize == |buffer|
      ensures Abs() == L.Run(old(Abs()), buffer, compare)
    {
      hide L.Run, L.Step;
      retsize := |buffer|;
      ghost var p0, target := Abs(), L.Run(Abs(), buffer, compare);
      if error {
        L.ErrorIsFinal(Abs(), buffer, compare);
        return;
      }
      if osType == L.OsUnknown && |buffer| > 0 {
        osType := if IsDigit(buffer[0]) then L.OsNT else L.OsUnix;
        Detected(p0, buffer);
      }
      var i := 0;
      assert buffer[0..] == buffer;
      while i < |buffer|
        invariant 0 <= i <= |buffer|
        invariant Valid() && (bData == old(bData) || fresh(bData))
        invariant !error && (i < |buffer| ==> osType != L.OsUnknown)
        invariant L.Run(Abs(), buffer[i..], compare) == target
        decreases |buffer| - i, if unixState == L.TotalInit then 1 else 0
      {
        RunNext(Abs(), buffer, i);
        var again := Turn(buffer[i]);
        RunNext(Abs(), buffer, i);
        if !again {
          i := i + 1;
        }
        if error {
          L.ErrorIsFinal(Abs(), buffer[i..], compare);
          return;
        }
      }
      NothingLeft(Abs(), buffer);
    }

    lemma RunNext(p: L.Parser, buffer: string, i: nat)
      requires i < |buffer|
      ensures L.Run(p, buffer[i..], compare) == L.Run(L.Step(p, buffer[i], compare), buffer[i + 1..], compare)
    {
      hide L.Step;
      assert buffer[i..][1..] == buffer[i + 1..];
    }

    lemma NothingLeft(p: L.Parser, buffer: string)
      ensures L.Run(p, buffer[|buffer|..], compare) == p
    {
    }

    /** Noting the response format changes nothing, since the first byte decides it anyway. */
    lemma Detected(p: L.Parser, buffer: string)
      requires p.os == L.OsUnknown && buffer != "" && !p.error
      ensures L.Run(p.(os := if IsDigit(buffer[0]) then L.OsNT else L.OsUnix), buffer, compare)
           == L.Run(p, buffer, compare)
    {
      hide L.NtStep, L.UnixStep;
    }

    /** A transfer: the write callback gets the listing chunk by chunk. However it is cut, the
        parser ends up as if it had seen the whole listing in one call. */
    method ParseTransfer(chunks: seq<string>)
      requires Valid()
      modifies this, bData
      ensures Valid()
      ensures Abs() == L.Run(old(Abs()), Flatten(chunks), compare)
    {
      L.ChunkIndependence(Abs(), chunks, compare);
      var k := 0;
      while k < |chunks|
        invariant 0 <= k <= |chunks|
        invariant Valid() && (bData == old(bData) || fresh(bData))
        invariant L.RunChunks(Abs(), chunks[k..], compare) == old(L.RunChunks(Abs(), chunks, compare))
      {
        var n := ParseList(chunks[k]);
        k := k + 1;
      }
    }
  }
}
