/** The answer of the version check (services/firmware/utils/src/firmware_check_analyze_utils.cpp), the size
    shown for it (services/firmware/common/src/firmware_update_helper.cpp) and the description read back for
    it (services/engine/src/update_service_impl_firmware.cpp). */
module CheckAnalyze {
  import opened Common
  import opened Strings
  import opened Changelog

  const INT64_MAX := 0x7fff_ffff_ffff_ffff
  const SIZE_T_COUNT := 0x1_0000_0000_0000_0000
  const MAX_FILE_NAME_LENGTH := 255

  const ERR_OK := 0
  const MISSING_PROP := 2
  const TYPE_ERROR := 3

  const STATUS_SYSTEM_ERROR: Int32 := -1
  const STATUS_NEW_VERSION_AVAILABLE: Int32 := 0
  const STATUS_NEW_VERSION_NOT_AVAILABLE: Int32 := 1

  const DYNAMIC: Int32 := 0
  const REGULAR_OTA: Int32 := 0
  const HOTA_TYPE: Int32 := 1
  const DYNAMIC_TYPE: Int32 := 100

  type Int64 = n: int | -0x8000_0000_0000_0000 <= n <= INT64_MAX

  // ---------- The parsed answer ----------

  /** What cJSON holds under one key, seen through the type that the code asks for. */
  datatype Field<T> = Missing | WrongType | Got(value: T)

  /** One entry of checkResults. */
  datatype CheckItem = CheckItem(descriptPackageId: Field<string>, url: Field<string>, size: Field<Int64>,
    verifyInfo: Field<string>, versionCode: Field<string>, versionName: Field<string>,
    packageType: Field<Int32>, otaType: Field<Int32>)

  /** One entry of descriptInfo. */
  datatype DescriptItem = DescriptItem(descriptionType: Field<Int32>, content: Field<string>)

  /** A list is None when its key is missing; an entry is None when cJSON gives a null pointer for it. */
  datatype Root = Root(searchStatus: Field<Int32>, checkResults: Option<seq<Option<CheckItem>>>,
    descriptInfo: Option<seq<Option<DescriptItem>>>)

  datatype FirmwareComponent = FirmwareComponent(descriptPackageId: string, url: string, size: Int64,
    fileName: string, verifyInfo: string, versionNumber: string, targetBlVersionNumber: string,
    targetBlDisplayVersionNumber: string, versionPackageType: Int32, otaType: Int32, blVersionType: Int32,
    componentId: string)

  /** GetValueAndSetTo: its return code, and the value that the variable has afterwards. */
  function GetValueAndSetTo<T>(field: Field<T>, value: T): (r: (int, T))
    ensures r.0 >= 0 && (r.0 == ERR_OK <==> field.Got?)
    ensures r.1 == if field.Got? then field.value else value
  {
    match field
    case Missing => (MISSING_PROP, value)
    case WrongType => (TYPE_ERROR, value)
    case Got(v) => (ERR_OK, v)
  }

  function ValueOr<T>(field: Field<T>, default: T): T {
    if field.Got? then field.value else default
  }

  // ---------- What should come out ----------

  /** A name that stays inside its directory. */
  ghost predicate SafeFileName(name: string) {
    0 < |name| <= MAX_FILE_NAME_LENGTH && '/' !in name && '\\' !in name
    && forall i | 0 <= i < |name| - 1 :: !(name[i] == '.' && name[i + 1] == '.')
  }

  ghost predicate IsKept(item: CheckItem) {
    ValueOr(item.size, 0) > 0 && SafeFileName(AfterLast(ValueOr(item.url, ""), '/'))
  }

  ghost function Component(item: CheckItem): FirmwareComponent {
    var id, name := ValueOr(item.descriptPackageId, ""), ValueOr(item.versionName, "");
    FirmwareComponent(id, ValueOr(item.url, ""), ValueOr(item.size, 0), AfterLast(ValueOr(item.url, ""), '/'),
      ValueOr(item.verifyInfo, ""), ValueOr(item.versionCode, ""), name, name,
      ValueOr(item.packageType, DYNAMIC), ValueOr(item.otaType, REGULAR_OTA), HOTA_TYPE, id)
  }

  ghost function KeptOf(item: Option<CheckItem>): seq<FirmwareComponent> {
    if item.Some? && IsKept(item.value) then [Component(item.value)] else []
  }

  ghost function KeptComponents(results: seq<Option<CheckItem>>): seq<FirmwareComponent> {
    if results == [] then []
    else KeptComponents(results[..|results| - 1]) + KeptOf(results[|results| - 1])
  }

  lemma KeptSnoc(results: seq<Option<CheckItem>>, n: nat)
    requires n < |results|
    ensures KeptComponents(results[..n + 1]) == KeptComponents(results[..n]) + KeptOf(results[n])
  {
    assert results[..n + 1][..n] == results[..n];
  }

  function TotalSize(components: seq<FirmwareComponent>): int {
    if components == [] then 0
    else TotalSize(components[..|components| - 1]) + components[|components| - 1].size
  }

  /** The reads that AnalyzeBlVersionCheckResults makes of every entry. */
  ghost predicate VersionRead(item: CheckItem) {
    item.descriptPackageId.Got? && item.packageType.Got? && item.versionName.Got? && item.versionCode.Got?
    && item.url.Got?
  }

  /** The reads that ProcessCheckResults makes; it stops early with an entry that it drops. */
  ghost predicate ComponentRead(item: CheckItem) {
    item.descriptPackageId.Got? && item.url.Got? && item.size.Got?
    && (IsKept(item) ==> item.verifyInfo.Got? && item.versionCode.Got? && item.versionName.Got?
                         && item.packageType.Got? && item.otaType.Got?)
  }

  ghost predicate DescriptRead(item: DescriptItem) {
    item.descriptionType.Got? && item.content.Got?
  }

  ghost predicate All<T(!new)>(list: seq<Option<T>>, p: T -> bool) {
    forall i | 0 <= i < |list| && list[i].Some? :: p(list[i].value)
  }

  lemma AllSnoc<T(!new)>(list: seq<Option<T>>, n: nat, p: T -> bool)
    requires n < |list|
    ensures All(list[..n + 1], p) <==> All(list[..n], p) && (list[n].Some? ==> p(list[n].value))
  {
    assert forall i | 0 <= i < n :: list[..n + 1][i] == list[..n][i];
    assert list[..n + 1][n] == list[n];
  }

  /** A new version is taken over exactly when nothing at all was wrong with the answer: every field of every
      entry could be read, also of the entries that are dropped, except the two fields that are read for
      kept entries only. */
  ghost predicate Complete(root: Root, before: seq<FirmwareComponent>) {
    root.checkResults.Some? && root.descriptInfo.Some?
    && All(root.checkResults.value, item => VersionRead(item) && ComponentRead(item))
    && All(root.descriptInfo.value, DescriptRead)
    && TotalSize(before + KeptComponents(root.checkResults.value)) <= INT64_MAX
  }

  ghost predicate Publishes(root: Root, before: seq<FirmwareComponent>) {
    var status := ValueOr(root.searchStatus, STATUS_SYSTEM_ERROR);
    status == STATUS_NEW_VERSION_NOT_AVAILABLE || (status == STATUS_NEW_VERSION_AVAILABLE && Complete(root, before))
  }

  ghost predicate KeptAt(results: seq<Option<CheckItem>>, i: int) {
    0 <= i < |results| && results[i].Some? && IsKept(results[i].value)
  }

  /** The positions of the kept entries. */
  ghost function KeptIndices(results: seq<Option<CheckItem>>): seq<nat> {
    if results == [] then []
    else
      var n := |results| - 1;
      KeptIndices(results[..n]) + if KeptAt(results, n) then [n] else []
  }

  /** Each kept entry is listed once, in the order of the answer. */
  lemma {:induction false} IndicesExact(results: seq<Option<CheckItem>>)
    ensures forall i: nat :: i in KeptIndices(results) <==> KeptAt(results, i)
    ensures forall j, k | 0 <= j < k < |KeptIndices(results)| :: KeptIndices(results)[j] < KeptIndices(results)[k]
  {
    if results != [] {
      var n := |results| - 1;
      var before := KeptIndices(results[..n]);
      IndicesExact(results[..n]);
      forall i: nat ensures i in KeptIndices(results) <==> KeptAt(results, i) {
        assert KeptAt(results[..n], i) <==> i < n && KeptAt(results, i);
      }
      assert forall k | 0 <= k < |before| :: before[k] in before;
    }
  }

  /** The kept components are the kept entries, position by position. */
  lemma {:induction false} KeptInOrder(results: seq<Option<CheckItem>>, k: nat)
    ensures |KeptComponents(results)| == |KeptIndices(results)|
    ensures k < |KeptIndices(results)|
            ==> KeptAt(results, KeptIndices(results)[k])
                && KeptComponents(results)[k] == Component(results[KeptIndices(results)[k]].value)
  {
    if results != [] {
      var n := |results| - 1;
      KeptInOrder(results[..n], k);
    }
  }

  /** What must be readable in an entry of a complete answer, kept or dropped. */
  ghost predicate EntryRead(item: CheckItem) {
    && item.descriptPackageId.Got? && item.url.Got? && item.size.Got? && item.versionName.Got?
    && item.versionCode.Got? && item.packageType.Got?
    && (item.size.value > 0 && SafeFileName(AfterLast(item.url.value, '/'))
        ==> item.verifyInfo.Got? && item.otaType.Got?)
  }

  lemma AllMembers<T(!new)>(list: seq<Option<T>>, p: T -> bool)
    ensures All(list, p) <==> forall item | Some(item) in list :: p(item)
  {
    forall i | 0 <= i < |list| && list[i].Some? ensures Some(list[i].value) in list {
      assert list[i] == Some(list[i].value);
    }
  }

  /** An answer is complete exactly when both lists are there, six fields of every entry could be read and the other
      two of the kept ones, both fields of every description, and the sizes fit. */
  lemma CompleteIff(root: Root, before: seq<FirmwareComponent>)
    ensures Complete(root, before)
            <==> && root.checkResults.Some? && root.descriptInfo.Some?
                 && (forall item | Some(item) in root.checkResults.value :: EntryRead(item))
                 && (forall item | Some(item) in root.descriptInfo.value ::
                       item.descriptionType.Got? && item.content.Got?)
                 && TotalSize(before + KeptComponents(root.checkResults.value)) <= INT64_MAX
  {
    if root.checkResults.Some? && root.descriptInfo.Some? {
      var results, infos := root.checkResults.value, root.descriptInfo.value;
      AllMembers(results, item => VersionRead(item) && ComponentRead(item));
      AllMembers(infos, DescriptRead);
      forall item | Some(item) in results ensures VersionRead(item) && ComponentRead(item) <==> EntryRead(item) {
      }
    }
  }

  /** The caller's list is replaced exactly when the status is 1, or is 0 with a complete answer; a status that could
      not be read, or another one, publishes nothing. */
  lemma PublishesIff(root: Root, before: seq<FirmwareComponent>)
    ensures Publishes(root, before)
            <==> root.searchStatus == Got(1) || (root.searchStatus == Got(0) && Complete(root, before))
  {
  }

  /** The component comes from this entry, field by field. */
  ghost predicate IsFrom(c: FirmwareComponent, item: CheckItem) {
    && item.descriptPackageId == Got(c.descriptPackageId) && c.componentId == c.descriptPackageId
    && item.url == Got(c.url) && c.fileName == AfterLast(c.url, '/') && item.size == Got(c.size)
    && item.verifyInfo == Got(c.verifyInfo) && item.versionCode == Got(c.versionNumber)
    && item.versionName == Got(c.targetBlVersionNumber) && item.versionName == Got(c.targetBlDisplayVersionNumber)
    && item.packageType == Got(c.versionPackageType) && item.otaType == Got(c.otaType) && c.blVersionType == HOTA_TYPE
  }

  /** Every field of a published component was read from the entry at its position. */
  lemma PublishedFields(root: Root, before: seq<FirmwareComponent>, k: nat)
    requires Complete(root, before) && k < |KeptComponents(root.checkResults.value)|
    ensures var results := root.checkResults.value;
            && k < |KeptIndices(results)| && KeptAt(results, KeptIndices(results)[k])
            && IsFrom(KeptComponents(results)[k], results[KeptIndices(results)[k]].value)
  {
    var results := root.checkResults.value;
    KeptInOrder(results, k);
    var item := results[KeptIndices(results)[k]].value;
    assert VersionRead(item) && ComponentRead(item);
  }

  predicate Valid(components: seq<FirmwareComponent>) {
    forall c | c in components :: c.size > 0 && c.blVersionType == HOTA_TYPE && c.componentId == c.descriptPackageId
  }

  lemma {:induction false} KeptAreValid(results: seq<Option<CheckItem>>)
    ensures Valid(KeptComponents(results))
    ensures forall c | c in KeptComponents(results) :: SafeFileName(c.fileName)
  {
    if results != [] {
      KeptAreValid(results[..|results| - 1]);
    }
  }

  /** The total is the sum over the list. */
  lemma {:induction false} TotalIsSum(a: seq<FirmwareComponent>, c: FirmwareComponent, b: seq<FirmwareComponent>)
    ensures TotalSize([]) == 0 && TotalSize([c]) == c.size
    ensures TotalSize(a + b) == TotalSize(a) + TotalSize(b)
    decreases |b|
  {
    assert [c][..0] == [];
    if b == [] {
      assert a + b == a;
    } else {
      var front := b[..|b| - 1];
      assert (a + b)[..|a + b| - 1] == a + front;
      TotalIsSum(a, c, front);
    }
  }

  lemma {:induction false} TotalGrows(components: seq<FirmwareComponent>, k: nat)
    requires k <= |components| && Valid(components)
    ensures 0 <= TotalSize(components[..k]) <= TotalSize(components)
    decreases |components|
  {
    if k == |components| {
      assert components[..k] == components;
      if k > 0 {
        TotalGrows(components[..k - 1], k - 1);
        assert components[k - 1] in components;
      }
    } else {
      var front := components[..|components| - 1];
      assert front[..k] == components[..k];
      assert components[|components| - 1] in components;
      TotalGrows(front, k);
    }
  }

  // ---------- File names ----------

  lemma NoPair(s: string, c: char)
    ensures HasNo(s, [c, c]) <==> forall i | 0 <= i < |s| - 1 :: !(s[i] == c && s[i + 1] == c)
  {
    if i :| 0 <= i < |s| - 1 && s[i] == c && s[i + 1] == c {
      assert s[i..i + 2] == [c, c];
      assert At(s, [c, c], i);
    }
    if !HasNo(s, [c, c]) {
      var i := Find(s, [c, c], 0).value;
      assert s[i..i + 2][0] == s[i] && s[i..i + 2][1] == s[i + 1];
    }
  }

  method IsValidFileName(fileName: string) returns (valid: bool)
    ensures valid == SafeFileName(fileName)
  {
    if fileName == "" {
      return false;
    }
    if |fileName| > MAX_FILE_NAME_LENGTH {
      return false;
    }
    var invalidPatterns := ["..", "/", "\\"];
    NoPair(fileName, '.');
    NoChar(fileName, '/');
    NoChar(fileName, '\\');
    for i := 0 to |invalidPatterns|
      invariant forall k | 0 <= k < i :: HasNo(fileName, invalidPatterns[k])
    {
      if Find(fileName, invalidPatterns[i], 0).Some? {
        return false;
      }
    }
    assert HasNo(fileName, invalidPatterns[0]) && HasNo(fileName, invalidPatterns[1])
           && HasNo(fileName, invalidPatterns[2]);
    return true;
  }

  // ---------- Changelog files ----------

  /** The files of the changelog directory, by component id; the file of an id is <id>.xml. */
  type Files = map<string, string>

  /** What is outside the program: whether each save succeeds, and the number that an unread description type
      happens to hold. */
  datatype Outside = Outside(saves: nat -> bool, noise: nat -> Int32)

  ghost function RecordOf(item: DescriptItem, noise: Int32): string {
    Record(ValueOr(item.descriptionType, noise), ValueOr(item.content, ""))
  }

  /** The last description that could be saved; all of them go to the same file. */
  ghost function LastSaved(infos: seq<Option<DescriptItem>>, outside: Outside): Option<string> {
    if infos == [] then None
    else
      var n := |infos| - 1;
      if infos[n].Some? && outside.saves(n) then Some(RecordOf(infos[n].value, outside.noise(n)))
      else LastSaved(infos[..n], outside)
  }

  /** ... that is, the record of an entry that was saved and has no saved entry behind it. */
  lemma {:induction false} LastSavedIs(infos: seq<Option<DescriptItem>>, outside: Outside, n: nat)
    requires n < |infos| && infos[n].Some? && outside.saves(n)
    requires forall j | n < j < |infos| :: infos[j].None? || !outside.saves(j)
    ensures LastSaved(infos, outside) == Some(RecordOf(infos[n].value, outside.noise(n)))
    decreases |infos|
  {
    if n < |infos| - 1 {
      LastSavedIs(infos[..|infos| - 1], outside, n);
    }
  }

  lemma {:induction false} NoneSavedIff(infos: seq<Option<DescriptItem>>, outside: Outside)
    ensures LastSaved(infos, outside).None?
            <==> forall i: nat | i < |infos| && infos[i].Some? :: !outside.saves(i)
  {
    if infos != [] {
      NoneSavedIff(infos[..|infos| - 1], outside);
    }
  }

  ghost function OwnerId(components: seq<FirmwareComponent>): string {
    if components == [] then "" else components[|components| - 1].descriptPackageId
  }

  ghost function FilesAfter(files: Files, components: seq<FirmwareComponent>,
                            infos: seq<Option<DescriptItem>>, outside: Outside): Files {
    match LastSaved(infos, outside)
    case None => files
    case Some(record) => files[OwnerId(components) := record]
  }

  // ---------- The analyzer ----------

  predicate IsLegalStatus(status: Int32) {
    status == STATUS_NEW_VERSION_AVAILABLE || status == STATUS_NEW_VERSION_NOT_AVAILABLE
  }

  class FirmwareCheckAnalyzeUtils {
    /** components_ */
    var components: seq<FirmwareComponent>

    constructor ()
      ensures components == []
    {
      components := [];
    }

    method AnalyzeBlVersionCheckResults(root: Root) returns (ret: int)
      requires root.searchStatus == Got(STATUS_NEW_VERSION_AVAILABLE)
      ensures ret >= 0
      ensures ret == ERR_OK <==> root.checkResults.Some? && All(root.checkResults.value, VersionRead)
    {
      if root.checkResults.None? {
        return MISSING_PROP;
      }
      var results := root.checkResults.value;
      ret := ERR_OK;
      for i := 0 to |results|
        invariant ret >= 0
        invariant ret == ERR_OK <==> All(results[..i], VersionRead)
      {
        AllSnoc(results, i, VersionRead);
        if results[i].None? {
          continue;
        }
        var item := results[i].value;
        ret := ret + GetValueAndSetTo(item.descriptPackageId, "").0;
        ret := ret + GetValueAndSetTo(item.packageType, DYNAMIC).0;
        ret := ret + GetValueAndSetTo(item.versionName, "").0;
        ret := ret + GetValueAndSetTo(item.versionName, "").0;
        ret := ret + GetValueAndSetTo(item.versionCode, "").0;
        ret := ret + GetValueAndSetTo(item.url, "").0;
      }
      assert results[..|results|] == results;
    }

    /** One round of the loop of ProcessCheckResults. */
    method ProcessItem(item: CheckItem) returns (ret: int)
      modifies this
      ensures ret >= 0 && (ret == ERR_OK <==> ComponentRead(item))
      ensures components == old(components) + KeptOf(Some(item))
    {
      var (codeId, id) := GetValueAndSetTo(item.descriptPackageId, "");
      var (codeUrl, url) := GetValueAndSetTo(item.url, "");
      var (codeSize, size) := GetValueAndSetTo(item.size, 0);
      ret := codeId + codeUrl + codeSize;
      if size <= 0 {
        return;
      }
      var fileName := AfterLast(url, '/');
      var valid := IsValidFileName(fileName);
      if !valid {
        return;
      }
      var (codeVerify, verifyInfo) := GetValueAndSetTo(item.verifyInfo, "");
      var (codeVersion, versionNumber) := GetValueAndSetTo(item.versionCode, "");
      var (codeName, name) := GetValueAndSetTo(item.versionName, "");
      var (codeType, packageType) := GetValueAndSetTo(item.packageType, DYNAMIC);
      var (codeOta, otaType) := GetValueAndSetTo(item.otaType, REGULAR_OTA);
      ret := ret + codeVerify + codeVersion + codeName + codeType + codeOta;
      components := components + [FirmwareComponent(id, url, size, fileName, verifyInfo, versionNumber, name, name,
        packageType, otaType, HOTA_TYPE, id)];
    }

    method ProcessCheckResults(results: seq<Option<CheckItem>>) returns (ret: int)
      modifies this
      ensures ret >= 0 && (ret == ERR_OK <==> All(results, ComponentRead))
      ensures components == old(components) + KeptComponents(results)
    {
      ret := ERR_OK;
      ghost var kept := [];
      for i := 0 to |results|
        invariant ret >= 0
        invariant ret == ERR_OK <==> All(results[..i], ComponentRead)
        invariant components == old(components) + kept && kept == KeptComponents(results[..i])
      {
        KeptSnoc(results, i);
        AllSnoc(results, i, ComponentRead);
        if results[i].None? {
          continue;
        }
        var code := ProcessItem(results[i].value);
        ret := ret + code;
        kept := KeptComponents(results[..i + 1]);
      }
      assert results[..|results|] == results;
    }

    /** The guard never computes a number outside int64, and it lets the components pass exactly when the sum
        of their sizes is an int64. */
    method CheckTotalSize() returns (fits: bool)
      requires Valid(components)
      ensures fits <==> TotalSize(components) <= INT64_MAX
    {
      var totalSize: Int64 := 0;
      for i := 0 to |components|
        invariant totalSize == TotalSize(components[..i]) >= 0
      {
        var size := components[i].size;
        assert components[i] in components;
        var room: Int64 := INT64_MAX - size;
        assert components[..i + 1][..i] == components[..i];
        if totalSize > room {
          TotalGrows(components, i + 1);
          return false;
        }
        totalSize := totalSize + size;
      }
      assert components[..|components|] == components;
      return true;
    }

    method ProcessDescriptInfo(infos: seq<Option<DescriptItem>>, files: Files, outside: Outside)
      returns (ret: int, files': Files)
      ensures ret >= 0 && (ret == ERR_OK <==> All(infos, DescriptRead))
      ensures files' == FilesAfter(files, components, infos, outside)
    {
      ret, files' := ERR_OK, files;
      var componentId := if components == [] then "" else components[|components| - 1].descriptPackageId;
      for i := 0 to |infos|
        invariant ret >= 0
        invariant ret == ERR_OK <==> All(infos[..i], DescriptRead)
        invariant files' == FilesAfter(files, components, infos[..i], outside)
      {
        assert infos[..i + 1][..i] == infos[..i];
        AllSnoc(infos, i, DescriptRead);
        if infos[i].None? {
          continue;
        }
        var (codeType, descriptInfoType) := GetValueAndSetTo(infos[i].value.descriptionType, outside.noise(i));
        var (codeContent, content) := GetValueAndSetTo(infos[i].value.content, "");
        ret := ret + codeType + codeContent;
        var data := BuildRecord(descriptInfoType, content);
        if outside.saves(i) {
          files' := files'[componentId := data];
        }
      }
      assert infos[..|infos|] == infos;
    }

    method AnalyzeComponents(root: Root, files: Files, outside: Outside)
      returns (ret: int, files': Files)
      requires Valid(components)
      modifies this
      ensures Valid(components)
      ensures ret >= 0
      ensures ret == ERR_OK <==> root.checkResults.Some? && root.descriptInfo.Some?
                                 && All(root.checkResults.value, ComponentRead)
                                 && All(root.descriptInfo.value, DescriptRead)
                                 && TotalSize(components) <= INT64_MAX
      ensures components
              == old(components) + if root.checkResults.Some? then KeptComponents(root.checkResults.value) else []
      ensures files' == if root.checkResults.Some? && root.descriptInfo.Some? && TotalSize(components) <= INT64_MAX
                        then FilesAfter(files, components, root.descriptInfo.value, outside) else files
    {
      files' := files;
      if root.checkResults.None? {
        return MISSING_PROP, files;
      }
      ret := ProcessCheckResults(root.checkResults.value);
      KeptAreValid(root.checkResults.value);
      var fits := CheckTotalSize();
      if !fits {
        return MISSING_PROP, files;
      }
      if root.descriptInfo.None? {
        return MISSING_PROP, files;
      }
      var code;
      code, files' := ProcessDescriptInfo(root.descriptInfo.value, files, outside);
      ret := ret + code;
    }

    /** All or nothing: the caller's list is replaced by components_ when the answer is complete, and kept as it
        was otherwise. The changelog file is not covered by this: it is written as soon as both lists are there
        and the sizes fit, whether or not all fields could be read. */
    method DoAnalyze(root: Option<Root>, list: seq<FirmwareComponent>, responseStatus: string,
                     files: Files, outside: Outside)
      returns (list': seq<FirmwareComponent>, responseStatus': string, files': Files)
      requires Valid(components)
      modifies this
      ensures Valid(components)
      ensures list' == if root.Some? && Publishes(root.value, old(components)) then components else list
      ensures components == old(components)
                            + if root.Some? && root.value.searchStatus == Got(STATUS_NEW_VERSION_AVAILABLE)
                                 && root.value.checkResults.Some?
                              then KeptComponents(root.value.checkResults.value) else []
      ensures responseStatus' == if root.None? then responseStatus
                                 else ToString(ValueOr(root.value.searchStatus, STATUS_SYSTEM_ERROR))
      ensures files' == if root.Some? && root.value.searchStatus == Got(STATUS_NEW_VERSION_AVAILABLE)
                           && root.value.checkResults.Some? && root.value.descriptInfo.Some?
                           && TotalSize(components) <= INT64_MAX
                        then FilesAfter(files, components, root.value.descriptInfo.value, outside) else files
    {
      list', responseStatus', files' := list, responseStatus, files;
      var ret := ERR_OK;
      if root.None? {
        return;
      }
      var (_, status) := GetValueAndSetTo(root.value.searchStatus, STATUS_SYSTEM_ERROR);
      responseStatus' := ToString(status);
      if !IsLegalStatus(status) {
        return;
      }
      if status == STATUS_NEW_VERSION_AVAILABLE {
        var code := AnalyzeBlVersionCheckResults(root.value);
        ret := ret + code;
        code, files' := AnalyzeComponents(root.value, files, outside);
        ret := ret + code;
      }
      if ret == ERR_OK {
        list' := components;
      }
    }
  }

  // ---------- The size that is shown ----------

  datatype VersionComponent = VersionComponent(componentId: string, innerVersion: string, displayVersion: string,
    size: nat)

  function WrappedSize(components: seq<FirmwareComponent>): nat {
    TotalSize(components) % SIZE_T_COUNT
  }

  lemma ModularSum(a: int, b: int)
    ensures (a % SIZE_T_COUNT + b % SIZE_T_COUNT) % SIZE_T_COUNT == (a + b) % SIZE_T_COUNT
  {
    var m := SIZE_T_COUNT;
    var k := a / m + b / m;
    var low := a % m + b % m;
    assert a + b == k * m + low;
    if low >= m {
      assert a + b == (k + 1) * m + (low - m);
    }
  }

  function Shown(components: seq<FirmwareComponent>): VersionComponent
    requires components != []
  {
    VersionComponent(components[0].componentId, components[0].targetBlVersionNumber,
      components[0].targetBlDisplayVersionNumber, WrappedSize(components))
  }

  /** The sum is a 64-bit size_t that wraps; for what the analyzer publishes it is the true sum. */
  method BuildHotaVersionComponent(hotaComponents: seq<FirmwareComponent>) returns (r: VersionComponent)
    requires hotaComponents != []
    ensures r == Shown(hotaComponents)
    ensures r.componentId == hotaComponents[0].componentId && r.innerVersion == hotaComponents[0].targetBlVersionNumber
    ensures r.displayVersion == hotaComponents[0].targetBlDisplayVersionNumber
    ensures Valid(hotaComponents) && TotalSize(hotaComponents) <= INT64_MAX ==> r.size == TotalSize(hotaComponents)
  {
    var size := 0;
    for i := 0 to |hotaComponents|
      invariant size == WrappedSize(hotaComponents[..i])
    {
      var added := hotaComponents[i].size % SIZE_T_COUNT;
      assert hotaComponents[..i + 1][..i] == hotaComponents[..i];
      ModularSum(TotalSize(hotaComponents[..i]), hotaComponents[i].size);
      size := (size + added) % SIZE_T_COUNT;
    }
    assert hotaComponents[..|hotaComponents|] == hotaComponents;
    if Valid(hotaComponents) {
      TotalGrows(hotaComponents, |hotaComponents|);
    }
    r := VersionComponent(hotaComponents[0].componentId, hotaComponents[0].targetBlVersionNumber,
      hotaComponents[0].targetBlDisplayVersionNumber, size);
  }

  predicate IsHota(c: FirmwareComponent) {
    c.blVersionType == HOTA_TYPE || c.blVersionType == DYNAMIC_TYPE
  }

  ghost function HotaOnly(components: seq<FirmwareComponent>): seq<FirmwareComponent> {
    if components == [] then []
    else
      var last := components[|components| - 1];
      HotaOnly(components[..|components| - 1]) + if IsHota(last) then [last] else []
  }

  /** Just the components of types 1 and 100 stay, in their order. */
  lemma {:induction false} HotaOnlyIs(a: seq<FirmwareComponent>, c: FirmwareComponent, b: seq<FirmwareComponent>)
    ensures HotaOnly([c]) == if c.blVersionType == 1 || c.blVersionType == 100 then [c] else []
    ensures HotaOnly(a + b) == HotaOnly(a) + HotaOnly(b)
    decreases |b|
  {
    assert [c][..0] == [];
    if b == [] {
      assert a + b == a;
    } else {
      var front := b[..|b| - 1];
      assert (a + b)[..|a + b| - 1] == a + front;
      HotaOnlyIs(a, c, front);
    }
  }

  lemma {:induction false} PublishedAreHota(components: seq<FirmwareComponent>)
    requires Valid(components)
    ensures HotaOnly(components) == components
  {
    if components != [] {
      assert components[|components| - 1] in components;
      PublishedAreHota(components[..|components| - 1]);
    }
  }

  /** Components of other types are passed over; the rest is shown as one entry. Whatever the analyzer publishes
      is shown whole, with the true total size. */
  method BuildNewVersionInfo(components: seq<FirmwareComponent>, versions: seq<VersionComponent>)
    returns (versions': seq<VersionComponent>)
    ensures versions' == versions + if HotaOnly(components) == [] then [] else [Shown(HotaOnly(components))]
    ensures Valid(components) && components != [] && TotalSize(components) <= INT64_MAX
            ==> WrappedSize(components) == TotalSize(components) && versions' == versions + [Shown(components)]
  {
    versions' := versions;
    if components == [] {
      return;
    }
    var hotaComponents := [];
    for i := 0 to |components|
      invariant hotaComponents == HotaOnly(components[..i])
    {
      assert components[..i + 1][..i] == components[..i];
      if components[i].blVersionType == HOTA_TYPE {
        hotaComponents := hotaComponents + [components[i]];
      }
      if components[i].blVersionType == DYNAMIC_TYPE {
        hotaComponents := hotaComponents + [components[i]];
      }
    }
    assert components[..|components|] == components;
    if Valid(components) {
      PublishedAreHota(components);
    }
    if hotaComponents != [] {
      var hota := BuildHotaVersionComponent(hotaComponents);
      versions' := versions + [hota];
    }
  }

  // ---------- The descriptions that are read back ----------

  datatype ComponentDescription = ComponentDescription(componentId: string, content: string, descriptionType: Int32)

  predicate IsIdChar(c: char) {
    'a' <= c <= 'z' || 'A' <= c <= 'Z' || IsDigit(c) || c == '_' || c == '-'
  }

  predicate IsValidComponentId(componentId: string) {
    componentId != "" && forall c | c in componentId :: IsIdChar(c)
  }

  /** The ASCII codes of digits, letters, hyphen and underscore. */
  predicate IsIdCode(code: int) {
    48 <= code <= 57 || 65 <= code <= 90 || 97 <= code <= 122 || code == 45 || code == 95
  }

  /** An id is valid exactly when it is a name of these characters, so its file lies in the changelog directory. */
  lemma ValidIdIs(componentId: string)
    ensures IsValidComponentId(componentId)
            <==> componentId != "" && forall i | 0 <= i < |componentId| :: IsIdCode(componentId[i] as int)
    ensures IsValidComponentId(componentId) ==> '/' !in componentId && '.' !in componentId
  {
    if IsValidComponentId(componentId) {
      forall i | 0 <= i < |componentId| ensures IsIdCode(componentId[i] as int) {
        assert componentId[i] in componentId;
        assert IsIdChar(componentId[i]);
      }
    }
  }

  /** The description of one component, if it has one. */
  function Described(files: Files, language: string, id: string): Option<ComponentDescription> {
    if !IsValidComponentId(id) || id !in files then None
    else
      match Read(files[id], language)
      case None => None
      case Some((content, descriptionType)) => Some(ComponentDescription(id, content, descriptionType))
  }

  /** One round of the loop of GetNewVersionDescription. */
  method DescribeComponent(id: string, files: Files, language: string)
    returns (r: Option<ComponentDescription>)
    ensures r == Described(files, language, id)
  {
    if !IsValidComponentId(id) {
      return None;
    }
    if id !in files {
      return None;
    }
    var dataXml := files[id];
    var startIndex := Find(dataXml, "|", 0);
    if startIndex.None? || startIndex.value + 1 >= |dataXml| {
      return None;
    }
    var dataXmlFinal := Remove(dataXml[startIndex.value + 1..], OtherLanguage(language), LANGUAGE_END);
    var (_, descType) := DecStringToNumber(dataXml[..startIndex.value], 0);
    return Some(ComponentDescription(id, dataXmlFinal, descType));
  }

  function Map<A, B>(f: A -> B, list: seq<A>): (r: seq<B>)
    ensures |r| == |list|
  {
    if list == [] then [] else Map(f, list[..|list| - 1]) + [f(list[|list| - 1])]
  }

  lemma {:induction false} MapAt<A, B>(f: A -> B, list: seq<A>, i: nat)
    requires i < |list|
    ensures Map(f, list)[i] == f(list[i])
    decreases |list|
  {
    if i < |list| - 1 {
      MapAt(f, list[..|list| - 1], i);
    }
  }

  /** The descriptions of a list, component by component. */
  ghost function Descriptions(files: Files, language: string, components: seq<FirmwareComponent>)
    : seq<Option<ComponentDescription>>
  {
    Map((c: FirmwareComponent) => Described(files, language, c.componentId), components)
  }

  lemma DescriptionAt(files: Files, language: string, components: seq<FirmwareComponent>, i: nat)
    requires i < |components|
    ensures |Descriptions(files, language, components)| == |components|
    ensures Descriptions(files, language, components)[i] == Described(files, language, components[i].componentId)
  {
    MapAt((c: FirmwareComponent) => Described(files, language, c.componentId), components, i);
  }

  method DescribeAt(components: seq<FirmwareComponent>, i: nat, files: Files, language: string)
    returns (r: Option<ComponentDescription>)
    requires i < |components|
    ensures r == Descriptions(files, language, components)[i]
  {
    r := DescribeComponent(components[i].componentId, files, language);
    DescriptionAt(files, language, components, i);
  }

  /** The first component without a description ends the loop with the error answer; those before it have been
      added already. */
  method GetNewVersionDescription(components: seq<FirmwareComponent>, files: Files, language: string)
    returns (success: bool, descriptions: seq<ComponentDescription>)
    ensures success <==> components != [] && None !in Descriptions(files, language, components)
    ensures success ==> |descriptions| == |components|
    ensures !success && components != []
            ==> |descriptions| < |components|
                && Descriptions(files, language, components)[|descriptions|].None?
    ensures forall i | 0 <= i < |descriptions| && i < |components| ::
              Descriptions(files, language, components)[i] == Some(descriptions[i])
  {
    descriptions := [];
    if |components| == 0 {
      return false, [];
    }
    ghost var all := Descriptions(files, language, components);
    for i := 0 to |components|
      invariant |descriptions| == i
      invariant forall k | 0 <= k < i :: all[k] == Some(descriptions[k])
    {
      var description := DescribeAt(components, i, files, language);
      if description.None? {
        return false, descriptions;
      }
      descriptions := descriptions + [description.value];
    }
    return true, descriptions;
  }

  /** What the last saved description reads as: nothing is left of it when its text is empty. */
  ghost function SavedDescription(infos: seq<Option<DescriptItem>>, outside: Outside, language: string, id: string)
    : Option<ComponentDescription>
  {
    if infos == [] then None
    else
      var n := |infos| - 1;
      if infos[n].Some? && outside.saves(n) then
        var text := Replace(ValueOr(infos[n].value.content, ""), QUOTA, "\"");
        if text == "" then None
        else Some(ComponentDescription(id, Remove(text, OtherLanguage(language), LANGUAGE_END),
                    ValueOr(infos[n].value.descriptionType, outside.noise(n))))
      else SavedDescription(infos[..n], outside, language, id)
  }

  lemma {:induction false} SavedIsRead(infos: seq<Option<DescriptItem>>, outside: Outside, language: string, id: string)
    requires LastSaved(infos, outside).Some?
    ensures var read := Read(LastSaved(infos, outside).value, language);
            SavedDescription(infos, outside, language, id)
            == if read.None? then None else Some(ComponentDescription(id, read.value.0, read.value.1))
  {
    var n := |infos| - 1;
    if infos[n].Some? && outside.saves(n) {
      var item := infos[n].value;
      ReadWrite(ValueOr(item.descriptionType, outside.noise(n)), ValueOr(item.content, ""), language);
    } else {
      SavedIsRead(infos[..n], outside, language, id);
    }
  }

  /** From check to description: one check rewrites the description of the components that share the last
      component's id, with the last description that could be saved, and leaves every other one as it was. */
  lemma CheckThenDescribe(files: Files, components: seq<FirmwareComponent>,
                          infos: seq<Option<DescriptItem>>, outside: Outside, language: string, id: string)
    ensures Described(FilesAfter(files, components, infos, outside), language, id)
            == if id == OwnerId(components) && IsValidComponentId(id) && LastSaved(infos, outside).Some?
               then SavedDescription(infos, outside, language, id)
               else Described(files, language, id)
  {
    if LastSaved(infos, outside).Some? {
      SavedIsRead(infos, outside, language, id);
    }
  }

  lemma {:induction false} SavedNeedsSave(infos: seq<Option<DescriptItem>>, outside: Outside, language: string,
                                          id: string)
    ensures SavedDescription(infos, outside, language, id).Some?
            <==> SavedDescription(infos, outside, language, "").Some?
    ensures SavedDescription(infos, outside, language, id).Some? ==> LastSaved(infos, outside).Some?
  {
    if infos != [] {
      SavedNeedsSave(infos[..|infos| - 1], outside, language, id);
    }
  }

  /** So in an empty changelog directory a published version can be described exactly when all its components
      have one and the same valid id and the last saved description has text: a second id is never written. */
  lemma DescribedOnlyWithOneId(components: seq<FirmwareComponent>, infos: seq<Option<DescriptItem>>, outside: Outside,
                               language: string)
    requires Valid(components) && components != []
    ensures None !in Descriptions(FilesAfter(map[], components, infos, outside), language, components)
            <==> SavedDescription(infos, outside, language, "").Some? && IsValidComponentId(components[0].componentId)
                 && forall i | 0 <= i < |components| :: components[i].componentId == components[0].componentId
  {
    var last := components[|components| - 1];
    assert last in components && components[0] in components;
    assert OwnerId(components) == last.componentId;
    var files := FilesAfter(map[], components, infos, outside);
    forall i | 0 <= i < |components|
      ensures Descriptions(files, language, components)[i].Some?
              <==> components[i].componentId == last.componentId && IsValidComponentId(components[i].componentId)
                   && SavedDescription(infos, outside, language, "").Some?
    {
      DescriptionAt(files, language, components, i);
      CheckThenDescribe(map[], components, infos, outside, language, components[i].componentId);
      SavedNeedsSave(infos, outside, language, components[i].componentId);
    }
  }
}
