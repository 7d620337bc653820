/** The message types of the three generated files. */
module Schemas {

  import opened Wire
  import opened Codec
  import opened CodecLaws

  function NetInfo(): Desc {
    Desc([Field(1, Int32), Field(2, Bytes), Field(3, Bytes), Field(4, Int32), Field(5, Bytes), Field(6, Bytes)],
         [1, 2, 4, 5, 0, 3])
  }

  function NodeInfoList(): Desc {
    Desc([Field(1, Many(NetInfo()))], [0])
  }

  function Login(): Desc {
    Desc([Field(1, Bytes), Field(2, Bytes), Field(3, One(NetInfo())), Field(4, Bytes), Field(5, Bytes)],
         [0, 1, 3, 4, 2])
  }

  function LoginRes(): Desc {
    Desc([Field(1, Bytes), Field(2, Int32), Field(3, Int32), Field(4, Bytes), Field(5, Bytes)],
         [0, 3, 4, 1, 2])
  }

  function CpeNodeChangeNotify(): Desc {
    Desc([Field(1, Bytes), Field(2, Bytes)], [0, 1])
  }

  function CustemorInfo(): Desc {
    Desc([Field(1, Bytes), Field(2, Bytes), Field(3, Bytes)], [0, 1, 2])
  }

  function CustemorPEList(): Desc {
    Desc([Field(1, Bytes), Field(2, Bytes), Field(3, Int32), Field(4, Int32), Field(5, Many(CustemorInfo()))],
         [4, 0, 1, 2, 3])
  }

  function UserListOnEdge(): Desc {
    Desc([Field(1, Many(CustemorPEList()))], [0])
  }

  function KeepAlive(): Desc {
    Desc([Field(1, Bytes), Field(2, UInt64), Field(3, UInt64), Field(4, Bytes)], [0, 3, 1, 2])
  }

  function KeepAliveRes(): Desc {
    Desc([Field(1, Bytes), Field(2, UInt32), Field(3, UInt64), Field(4, UInt64), Field(5, Bytes)],
         [0, 4, 2, 3, 1])
  }

  /** Each type numbers its fields from 1 in order, and position gives back where the size order
      visits each of them. */
  lemma {:induction false} NumberedGood(d: Desc, position: seq<nat>)
    requires |d.fields| < 16 && |d.sizeOrder| == |position| == |d.fields|
    requires forall i :: 0 <= i < |d.fields| ==> d.fields[i].num == i + 1 && GoodKind(d.fields[i].kind)
    requires Below(position, |d.fields|) && Below(d.sizeOrder, |d.fields|)
    requires forall i :: 0 <= i < |d.fields| ==> d.sizeOrder[position[i]] == i
    requires forall k :: 0 <= k < |d.fields| ==> position[d.sizeOrder[k]] == k
    ensures Good(d)
  {
    forall j, k | 0 <= j < k < |d.sizeOrder| ensures d.sizeOrder[j] != d.sizeOrder[k] {
      assert position[d.sizeOrder[j]] == j && position[d.sizeOrder[k]] == k;
    }
    forall i | 0 <= i < |d.fields| ensures i in d.sizeOrder {
      assert d.sizeOrder[position[i]] == i;
    }
  }

  lemma NetInfoGood()
    ensures Good(NetInfo())
  {
    NumberedGood(NetInfo(), [4, 0, 1, 5, 2, 3]);
  }

  lemma NodeInfoListGood()
    ensures Good(NodeInfoList())
  {
    NetInfoGood();
    NumberedGood(NodeInfoList(), [0]);
  }

  lemma LoginGood()
    ensures Good(Login())
  {
    NetInfoGood();
    NumberedGood(Login(), [0, 1, 4, 2, 3]);
  }

  lemma LoginResGood()
    ensures Good(LoginRes())
  {
    NumberedGood(LoginRes(), [0, 3, 4, 1, 2]);
  }

  lemma CpeNodeChangeNotifyGood()
    ensures Good(CpeNodeChangeNotify())
  {
    NumberedGood(CpeNodeChangeNotify(), [0, 1]);
  }

  lemma CustemorInfoGood()
    ensures Good(CustemorInfo())
  {
    NumberedGood(CustemorInfo(), [0, 1, 2]);
  }

  lemma CustemorPEListGood()
    ensures Good(CustemorPEList())
  {
    CustemorInfoGood();
    NumberedGood(CustemorPEList(), [1, 2, 3, 4, 0]);
  }

  lemma UserListOnEdgeGood()
    ensures Good(UserListOnEdge())
  {
    CustemorPEListGood();
    NumberedGood(UserListOnEdge(), [0]);
  }

  lemma KeepAliveGood()
    ensures Good(KeepAlive())
  {
    NumberedGood(KeepAlive(), [0, 2, 3, 1]);
  }

  lemma KeepAliveResGood()
    ensures Good(KeepAliveRes())
  {
    NumberedGood(KeepAliveRes(), [0, 4, 2, 3, 1]);
  }

  predicate IsType(d: Desc) {
    || d == NetInfo() || d == NodeInfoList() || d == Login() || d == LoginRes() || d == CpeNodeChangeNotify()
    || d == CustemorInfo() || d == CustemorPEList() || d == UserListOnEdge()
    || d == KeepAlive() || d == KeepAliveRes()
  }

  lemma {:induction false} TypesGood(d: Desc)
    requires IsType(d)
    ensures Good(d)
  {
    hide NetInfo, NodeInfoList, Login, LoginRes, CpeNodeChangeNotify, CustemorInfo, CustemorPEList, UserListOnEdge,
      KeepAlive, KeepAliveRes, Good;
    NetInfoGood();
    NodeInfoListGood();
    LoginGood();
    LoginResGood();
    CpeNodeChangeNotifyGood();
    CustemorInfoGood();
    CustemorPEListGood();
    UserListOnEdgeGood();
    KeepAliveGood();
    KeepAliveResGood();
  }

  /** Every message type is well formed, round-trips, merges by concatenation and knows its size. */
  lemma {:induction false} TypesKeepTheLaws(d: Desc, x: Msg, y: Msg)
    requires IsType(d) && Typed(d, x) && Typed(d, y)
    requires |Ser(d, x)| <= MAX_SIZE && |Ser(d, y)| <= MAX_SIZE
    ensures Good(d) && |Ser(d, x)| == Size(d, x)
    ensures Parse(d, Empty(d), Ser(d, x)) == Some(x)
    ensures Parse(d, Empty(d), Ser(d, x) + Ser(d, y)) == Some(Merge(d, x, y))
  {
    TypesGood(d);
    hide IsType;
    SizeIsLength(d, x);
    SizeIsLength(d, y);
    RoundTrip(d, x);
    ConcatMerges(d, x, y);
  }
}
