/** The brochure settings document of `getBrochureSettings`: a fixed set of defaults that a
    stored document overrides field by field (`{ ...defaults, ...settings }`). */
module Settings {
  import opened Common

  datatype Feature = Feature(id: string, icon: string, title: string, description: string, color: string)

  /** A field of a settings document: text, or a list of feature cards. */
  datatype Field = Text(text: string) | Features(features: seq<Feature>)

  /** The brochure fields that exist even when nothing is stored. */
  const BrochureDefaults: map<string, Field> := map[
    "heroTitle" := Text("الفيزياء <span class=\"text-transparent bg-clip-text bg-gradient-to-r from-blue-400 to-cyan-300\">الحديثة</span>"),
    "heroSubtitle" := Text("منصة تعليمية متطورة تدمج الذكاء الاصطناعي مع المنهج الكويتي."),
    "section1Title" := Text("مميزات ذكية"),
    "section1Features" := Features([
      Feature("f1", "BrainCircuit", "مساعد ذكي", "إجابات دقيقة", "cyan"),
      Feature("f2", "Waypoints", "مسارات تفاعلية", "تعلم مخصص", "amber")]),
    "section2Title" := Text("تحليلات الأداء"),
    "section2Features" := Features([
      Feature("f3", "BarChart3", "تقارير مفصلة", "تابع تقدمك", "cyan"),
      Feature("f4", "Star", "نقاط وجوائز", "نظام تحفيزي", "amber")]),
    "section3Title" := Text("أمان وموثوقية"),
    "section3Features" := Features([
      Feature("f5", "Lock", "حماية البيانات", "أمان عالي", "cyan"),
      Feature("f6", "Sparkles", "محتوى معتمد", "جودة عالية", "amber")]),
    "ctaTitle" := Text("ابدأ الآن"),
    "ctaSubtitle" := Text("انضم للنخبة"),
    "ctaButtonText" := Text("تسجيل دخول")
  ]

  /** `{ ...defaults, ...(stored || {}) }`: every stored field wins over its default, and every
      default field not stored is kept. */
  function MergeWithDefaults(stored: Option<map<string, Field>>): (r: map<string, Field>)
    ensures forall k :: k in r <==> k in BrochureDefaults || (stored.Some? && k in stored.value)
    ensures stored.Some? ==> forall k :: k in stored.value ==> r[k] == stored.value[k]
    ensures forall k :: k in BrochureDefaults && (stored.None? || k !in stored.value) ==> r[k] == BrochureDefaults[k]
  {
    BrochureDefaults + stored.GetOr(map[])
  }

  /** Merging is idempotent: a merged document stored back and merged again is unchanged;
      with nothing stored the brochure is exactly the defaults. */
  lemma MergeIdempotent(stored: Option<map<string, Field>>)
    ensures MergeWithDefaults(Some(MergeWithDefaults(stored))) == MergeWithDefaults(stored)
    ensures MergeWithDefaults(None) == BrochureDefaults
  {
  }
}
