/** The category validator: membership of a label in the fixed, hard-coded
    list of resource categories (`Resources::validate_category`). */
module Categories {

  /** The list exactly as `validate_category` writes it, in order. It holds 42 entries,
      and two of them are repeats: 'General' (positions 12 and 40) and
      'Real Estate' (positions 20 and 34). */
  const CategoryList: seq<string> := [
    "Art.Entertainment.Music.Movies",
    "Auto",
    "Business",
    "Crypto.BTC",
    "Dating",
    "Adult",
    "Edu",
    "Family.Personal",
    "Finance",
    "Food",
    "Gambling",
    "Games",
    "General",
    "Green.Eco",
    "Health.Beauty.Fitness",
    "Home Improvements",
    "Law",
    "Lifestyle",
    "News",
    "Pets",
    "Real Estate",
    "Seo. Web Design",
    "Shopping.Fashion",
    "Sport",
    "Tech.Mobile",
    "Travel",
    "Automotive",
    "Construction",
    "Entertainment",
    "Food & Beverages",
    "Gambling & Casinos",
    "Hospitality",
    "Health & Beauty",
    "Marketing",
    "Real Estate",
    "Retail",
    "Sports",
    "Fashion",
    "Technology",
    "Computer & IT",
    "General",
    "Language"
  ]

  /** The 40 distinct labels, as a set: the reference against which the
      list lookup is checked. */
  const CategorySet: set<string> := {
    "Art.Entertainment.Music.Movies", "Auto", "Business", "Crypto.BTC",
    "Dating", "Adult", "Edu", "Family.Personal", "Finance", "Food",
    "Gambling", "Games", "General", "Green.Eco", "Health.Beauty.Fitness",
    "Home Improvements", "Law", "Lifestyle", "News", "Pets", "Real Estate",
    "Seo. Web Design", "Shopping.Fashion", "Sport", "Tech.Mobile", "Travel",
    "Automotive", "Construction", "Entertainment", "Food & Beverages",
    "Gambling & Casinos", "Hospitality", "Health & Beauty", "Marketing",
    "Retail", "Sports", "Fashion", "Technology", "Computer & IT", "Language"
  }

  /** PHP `in_array($x, $list)`: a scan of the list for an entry equal to `x`.
      The comparison is loose in PHP, but between two strings that are not
      both numeric (no label here is numeric) it is exact string equality. */
  function InArray(x: string, list: seq<string>): (found: bool)
    ensures found <==> exists i :: 0 <= i < |list| && list[i] == x
  {
    if list == [] then false
    else if list[0] == x then true
    else
      var found := InArray(x, list[1..]);
      assert forall i :: 1 <= i < |list| ==> list[i] == list[1..][i - 1];
      found
  }

  /** `validate_category($name)`: is `name` one of the listed labels. */
  function ValidateCategory(name: string): bool {
    InArray(name, CategoryList)
  }

  /** A label validates exactly when it is one of the 40 distinct labels,
      compared as an exact string. */
  lemma ValidateCategoryIsMembership(name: string)
    ensures ValidateCategory(name) <==> name in CategorySet
  {
    assert forall i :: 0 <= i < |CategoryList| ==> CategoryList[i] in CategorySet;
    assert forall c :: c in CategorySet ==> c in CategoryList;
  }

  /** Dropping an entry that also appears earlier in the list changes no
      lookup: the list may carry repeats without changing the result. */
  lemma {:induction false} RepeatIsIrrelevant(x: string, list: seq<string>, i: nat, j: nat)
    requires i < j < |list| && list[i] == list[j]
    ensures InArray(x, list) == InArray(x, list[..j] + list[j + 1..])
  {
    var shorter := list[..j] + list[j + 1..];
    if InArray(x, list) {
      var k :| 0 <= k < |list| && list[k] == x;
      var k' := if k < j then k else if k == j then i else k - 1;
      assert shorter[k'] == x;
    }
    if InArray(x, shorter) {
      var k :| 0 <= k < |shorter| && shorter[k] == x;
      assert list[if k < j then k else k + 1] == x;
    }
  }

  /** The two repeated labels, and that their second copies can go. */
  lemma ListedRepeats(x: string)
    ensures CategoryList[12] == CategoryList[40] == "General"
    ensures CategoryList[20] == CategoryList[34] == "Real Estate"
    ensures InArray(x, CategoryList) == InArray(x, CategoryList[..40] + CategoryList[41..])
  {
    assert CategoryList[12] == "General" && CategoryList[40] == "General";
    assert CategoryList[20] == "Real Estate" && CategoryList[34] == "Real Estate";
    RepeatIsIrrelevant(x, CategoryList, 12, 40);
  }
}
